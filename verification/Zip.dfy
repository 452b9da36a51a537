/**
  * The ZIP reader and writer of the DOCX seal: local headers, central directory and end record of
  * sections 4.3.7, 4.3.12 and 4.3.16 of the PKWARE APPNOTE.
  */
module Zip {
  import opened Prelude
  import opened Bytes
  import opened Fields
  import Crc32

  datatype ZipEntry = ZipEntry(name: string, data: Bytes)

  datatype ZipError = OutOfRange | NoEndRecord | BadCentralHeader | BadLocalHeader
                    | EncryptedEntry | UnsafeName | UnsupportedCompression | InflateFailed

  /** The runtime's text encoding and raw deflate. */
  datatype Platform = Platform(encode: string -> Bytes, decode: Bytes -> string,
                               deflate: Bytes -> Bytes, inflate: Bytes -> Option<Bytes>)

  ghost predicate Lawful(p: Platform) {
    && (forall s :: p.decode(p.encode(s)) == s)
    && (forall d :: p.inflate(p.deflate(d)) == Some(d))
  }

  // ---- Entry names

  function ForwardSlashes(s: string): (r: string)
    ensures |r| == |s|
  {
    seq(|s|, i requires 0 <= i < |s| => if s[i] == '\\' then '/' else s[i])
  }

  function WithoutLeadingSlashes(s: string): string {
    if s != "" && s[0] == '/' then WithoutLeadingSlashes(s[1..]) else s
  }

  predicate HasDots(s: string) {
    exists i :: 0 <= i < |s| - 1 && s[i] == '.' && s[i + 1] == '.'
  }

  function Normalize(name: string): Result<string, ZipError> {
    var n := WithoutLeadingSlashes(ForwardSlashes(name));
    if n == "" || HasDots(n) then Err(UnsafeName) else Ok(n)
  }

  predicate IsDirectoryName(name: string) {
    name != "" && name[|name| - 1] == '/'
  }

  /** What a name has to look like for normalization to accept it as it is. */
  predicate IsNormalized(name: string) {
    name != "" && '\\' !in name && name[0] != '/' && !HasDots(name)
  }

  lemma {:induction false} TrimmedShape(s: string)
    requires '\\' !in s
    ensures var r := WithoutLeadingSlashes(s);
            '\\' !in r && (r != "" ==> r[0] != '/') && |r| <= |s| && (|r| == |s| ==> r == s)
  {
    if s != "" && s[0] == '/' {
      TrimmedShape(s[1..]);
    }
  }

  /** Normalization yields normalized names and keeps exactly those as they are. */
  lemma NormalizeLaws(name: string)
    ensures Normalize(name).Ok? ==> IsNormalized(Normalize(name).value)
    ensures Normalize(name) == Ok(name) <==> IsNormalized(name)
  {
    var s := ForwardSlashes(name);
    TrimmedShape(s);
    if IsNormalized(name) {
      assert s == name;
    }
  }

  /** What a normalized name says: the name behind its leading slashes of either kind, with forward slashes. */
  lemma NormalizedText(name: string)
    ensures Normalize(name) == Err(UnsafeName) || Normalize(name).Ok?
    ensures Normalize(name).Err? <==>
              (forall i :: 0 <= i < |name| ==> name[i] == '/' || name[i] == '\\')
              || exists i: nat :: LeadEnds(name, i) && DotsAt(name, i)
    ensures Normalize(name).Ok? ==>
              exists k: nat :: LeadEnds(name, k)
                && Normalize(name).value == seq(|name| - k, i requires 0 <= i < |name| - k =>
                     if name[k + i] == '\\' then '/' else name[k + i])
  {
    var s := ForwardSlashes(name);
    TrimmedIs(s);
    var k := |s| - |WithoutLeadingSlashes(s)|;
    var n := WithoutLeadingSlashes(s);
    assert n == s[k..];
    forall i | 0 <= i < |name|
      ensures s[i] == '/' <==> name[i] == '/' || name[i] == '\\'
    {}
    if n != "" {
      assert s[k] == n[0];
      assert LeadEnds(name, k);
      LeadIsUnique(name, k);
      DotsShow(name, n, k);
      assert n == seq(|name| - k, i requires 0 <= i < |name| - k => if name[k + i] == '\\' then '/' else name[k + i]);
    } else {
      assert forall i :: 0 <= i < |name| ==> s[i] == '/' && (name[i] == '/' || name[i] == '\\');
    }
  }

  /** Position `k` holds the first character that is no slash. */
  predicate LeadEnds(name: string, k: nat) {
    && k < |name| && name[k] != '/' && name[k] != '\\'
    && forall i :: 0 <= i < k ==> name[i] == '/' || name[i] == '\\'
  }

  /** Two dots follow each other somewhere behind `k`. */
  predicate DotsAt(name: string, k: nat) {
    exists i: nat :: k <= i && i + 1 < |name| && name[i] == '.' && name[i + 1] == '.'
  }

  lemma LeadIsUnique(name: string, k: nat)
    requires LeadEnds(name, k)
    ensures forall i: nat :: LeadEnds(name, i) ==> i == k
    ensures !(forall i :: 0 <= i < |name| ==> name[i] == '/' || name[i] == '\\')
  {}

  lemma {:induction false} TrimmedIs(s: string)
    ensures var n := WithoutLeadingSlashes(s);
            && |n| <= |s| && n == s[|s| - |n|..] && (forall i :: 0 <= i < |s| - |n| ==> s[i] == '/') && (n != "" ==> n[0] != '/')
  {
    if s != "" && s[0] == '/' {
      TrimmedIs(s[1..]);
      var n := WithoutLeadingSlashes(s);
      forall i | 0 < i < |s| - |n|
        ensures s[i] == '/'
      {
        assert s[1..][i - 1] == s[i];
      }
      assert s[1..][|s| - 1 - |n|..] == s[|s| - |n|..];
    }
  }

  lemma DotsShow(name: string, n: string, k: nat)
    requires k <= |name| && n == ForwardSlashes(name)[k..]
    ensures HasDots(n) <==> DotsAt(name, k)
  {
    forall i | 0 <= i < |n|
      ensures n[i] == '.' <==> name[k + i] == '.'
    {}
    if DotsAt(name, k) {
      var i: nat :| k <= i && i + 1 < |name| && name[i] == '.' && name[i + 1] == '.';
      assert n[i - k] == '.' && n[i - k + 1] == '.';
    }
    if HasDots(n) {
      var i :| 0 <= i < |n| - 1 && n[i] == '.' && n[i + 1] == '.';
      assert name[k + i] == '.' && name[k + i + 1] == '.';
    }
  }

  // ---- Archive layout

  const LOCAL_SIGNATURE := 0x04034b50
  const CENTRAL_SIGNATURE := 0x02014b50
  const END_SIGNATURE := 0x06054b50

  /** What the headers record about one entry: the local header can have a name and an extra field of its own. */
  datatype Part = Part(name: Bytes, flags: nat, compression: nat, crc: nat, size: nat, compressed: Bytes,
                       extra: Bytes, comment: Bytes, localName: Bytes, localExtra: Bytes) {
    predicate Fits() {
      && |name| < 0x1_0000 && flags < 0x1_0000 && compression < 0x1_0000
      && crc < 0x1_0000_0000 && size < 0x1_0000_0000 && |compressed| < 0x1_0000_0000
      && |extra| < 0x1_0000 && |comment| < 0x1_0000 && |localName| < 0x1_0000 && |localExtra| < 0x1_0000
    }
  }

  function LocalFields(part: Part): (fields: seq<Field>)
    requires part.Fits()
    ensures Tiles(fields) && End(fields) == 30
  {
    [U32(0, LOCAL_SIGNATURE), U16(4, 20), U16(6, part.flags), U16(8, part.compression), U32(10, 0), U32(14, part.crc),
     U32(18, |part.compressed|), U32(22, part.size), U16(26, |part.localName|), U16(28, |part.localExtra|)]
  }

  function CentralFields(part: Part, offset: nat): (fields: seq<Field>)
    requires part.Fits() && offset < 0x1_0000_0000
    ensures Tiles(fields) && End(fields) == 46
  {
    [U32(0, CENTRAL_SIGNATURE), U16(4, 20), U16(6, 20), U16(8, part.flags), U16(10, part.compression), U32(12, 0),
     U32(16, part.crc), U32(20, |part.compressed|), U32(24, part.size), U16(28, |part.name|),
     U16(30, |part.extra|), U16(32, |part.comment|), U16(34, 0), U16(36, 0), U32(38, 0), U32(42, offset)]
  }

  function EndFields(count: nat, directoryLength: nat, directoryOffset: nat): (fields: seq<Field>)
    requires count < 0x1_0000 && directoryLength < 0x1_0000_0000 && directoryOffset < 0x1_0000_0000
    ensures Tiles(fields) && End(fields) == 22
  {
    [U32(0, END_SIGNATURE), U16(4, 0), U16(6, 0), U16(8, count), U16(10, count), U32(12, directoryLength),
     U32(16, directoryOffset), U16(20, 0)]
  }

  function LocalHeader(part: Part): (h: Bytes)
    requires part.Fits()
    ensures |h| == 30 + |part.localName| + |part.localExtra|
  {
    Layout(LocalFields(part)) + part.localName + part.localExtra
  }

  function CentralHeader(part: Part, offset: nat): (h: Bytes)
    requires part.Fits() && offset < 0x1_0000_0000
    ensures |h| == 46 + |part.name| + |part.extra| + |part.comment|
  {
    Layout(CentralFields(part, offset)) + part.name + part.extra + part.comment
  }

  function EndRecord(count: nat, directoryLength: nat, directoryOffset: nat): (r: Bytes)
    requires count < 0x1_0000 && directoryLength < 0x1_0000_0000 && directoryOffset < 0x1_0000_0000
    ensures |r| == 22
  {
    Layout(EndFields(count, directoryLength, directoryOffset))
  }

  predicate AllFit(parts: seq<Part>) {
    forall i :: 0 <= i < |parts| ==> parts[i].Fits()
  }

  /** Local headers, each with its data behind it. */
  function LocalRecords(parts: seq<Part>): (records: seq<Bytes>)
    requires AllFit(parts)
    ensures |records| == |parts|
  {
    seq(|parts|, i requires 0 <= i < |parts| => LocalHeader(parts[i]) + parts[i].compressed)
  }

  function Offset(parts: seq<Part>, k: nat): nat
    requires AllFit(parts) && k <= |parts|
  {
    |Concat(LocalRecords(parts)[..k])|
  }

  predicate Addressable(parts: seq<Part>) {
    AllFit(parts) && forall k :: 0 <= k < |parts| ==> Offset(parts, k) < 0x1_0000_0000
  }

  /** Central headers, each pointing at the local header of its entry. */
  function CentralRecords(parts: seq<Part>): (records: seq<Bytes>)
    requires Addressable(parts)
    ensures |records| == |parts|
  {
    seq(|parts|, i requires 0 <= i < |parts| => CentralHeader(parts[i], Offset(parts, i)))
  }

  predicate FitsArchive(parts: seq<Part>) {
    && |parts| < 0x1_0000
    && Addressable(parts)
    && |Concat(LocalRecords(parts))| < 0x1_0000_0000
    && |Concat(CentralRecords(parts))| < 0x1_0000_0000
  }

  function Archive(parts: seq<Part>): (a: Bytes)
    requires FitsArchive(parts)
    ensures |a| >= 22
  {
    var locals, directory := Concat(LocalRecords(parts)), Concat(CentralRecords(parts));
    locals + directory + EndRecord(|parts|, |directory|, |locals|)
  }

  // ---- Reading

  function Slice(a: Bytes, from: nat, to: nat): Bytes {
    var lo := if from < |a| then from else |a|;
    var hi := if to < |a| then to else |a|;
    if lo <= hi then a[lo..hi] else []
  }

  /** The end record search runs backwards from the last position where the record fits. */
  function FindEndFrom(a: Bytes, offset: int): (r: Option<nat>)
    requires offset + 22 <= |a|
    ensures r.Some? ==> r.value + 22 <= |a|
    decreases offset
  {
    if offset < 0 || offset < |a| - 65557 then None
    else if GetLE32(a, offset) == END_SIGNATURE then Some(offset)
    else FindEndFrom(a, offset - 1)
  }

  datatype Step = Step(next: nat, entry: Option<ZipEntry>)

  /** The local header and the data behind it. */
  function ReadLocal(p: Platform, a: Bytes, at: nat, compression: nat, size: nat): Result<Bytes, ZipError> {
    if at + 4 > |a| then Err(OutOfRange)
    else if GetLE32(a, at) != LOCAL_SIGNATURE then Err(BadLocalHeader)
    else if at + 30 > |a| then Err(OutOfRange)
    else
      var start := at + 30 + GetLE16(a, at + 26) + GetLE16(a, at + 28);
      var stored := Slice(a, start, start + size);
      if compression == 0 then Ok(stored)
      else if compression != 8 then Err(UnsupportedCompression)
      else match p.inflate(stored)
        case Some(data) => Ok(data)
        case None => Err(InflateFailed)
  }

  /** One round of the directory walk: directory entries are skipped. */
  function ReadStep(p: Platform, a: Bytes, cursor: nat): Result<Step, ZipError> {
    if cursor + 4 > |a| then Err(OutOfRange)
    else if GetLE32(a, cursor) != CENTRAL_SIGNATURE then Err(BadCentralHeader)
    else if cursor + 46 > |a| then Err(OutOfRange)
    else
      var nameStart := cursor + 46;
      var nameEnd := nameStart + GetLE16(a, cursor + 28);
      var next := nameEnd + GetLE16(a, cursor + 30) + GetLE16(a, cursor + 32);
      match Normalize(p.decode(Slice(a, nameStart, nameEnd)))
      case Err(e) => Err(e)
      case Ok(name) =>
        if IsDirectoryName(name) then Ok(Step(next, None))
        else if GetLE16(a, cursor + 8) % 2 == 1 then Err(EncryptedEntry)
        else
          match ReadLocal(p, a, GetLE32(a, cursor + 42), GetLE16(a, cursor + 10), GetLE32(a, cursor + 20))
          case Err(e) => Err(e)
          case Ok(data) => Ok(Step(next, Some(ZipEntry(name, data))))
  }

  function Listed(entry: Option<ZipEntry>): seq<ZipEntry> {
    match entry
    case Some(e) => [e]
    case None => []
  }

  function StepAt(p: Platform, a: Bytes): nat -> Result<Step, ZipError> {
    (cursor: nat) => ReadStep(p, a, cursor)
  }

  /** `count` rounds, the listed entries in order; the first error ends the walk. */
  function Walk(step: nat -> Result<Step, ZipError>, cursor: nat, count: nat): Result<seq<ZipEntry>, ZipError>
    decreases count
  {
    if count == 0 then Ok([])
    else
      match step(cursor)
      case Err(e) => Err(e)
      case Ok(s) => Prepend(Listed(s.entry), Walk(step, s.next, count - 1))
  }

  /** What the reader makes of a byte string. */
  function ReadArchive(p: Platform, a: Bytes): Result<seq<ZipEntry>, ZipError> {
    if |a| < 22 then Err(NoEndRecord)
    else
      match FindEndFrom(a, |a| - 22)
      case None => Err(NoEndRecord)
      case Some(end) => Walk(StepAt(p, a), GetLE32(a, end + 16), GetLE16(a, end + 10))
  }

  // ---- What an archive says

  /** The fields and the name that the reader needs of a directory header, at their places in section 4.3.12. */
  ghost predicate CentralSays(a: Bytes, at: nat, part: Part, offset: nat) {
    && at + 46 + |part.name| <= |a|
    && a[at..at + 4] == [0x50, 0x4b, 0x01, 0x02]
    && GetLE16(a, at + 8) == part.flags && GetLE16(a, at + 10) == part.compression && GetLE32(a, at + 20) == |part.compressed|
    && GetLE16(a, at + 28) == |part.name| && GetLE16(a, at + 30) == |part.extra| && GetLE16(a, at + 32) == |part.comment|
    && GetLE32(a, at + 42) == offset && a[at + 46..at + 46 + |part.name|] == part.name
  }

  /** Those of a local header, in section 4.3.7, with the data behind its own name and extra field. */
  ghost predicate LocalSays(a: Bytes, at: nat, part: Part) {
    && at + 30 <= |a|
    && a[at..at + 4] == [0x50, 0x4b, 0x03, 0x04]
    && GetLE16(a, at + 26) == |part.localName| && GetLE16(a, at + 28) == |part.localExtra|
    && Holds(a, at + 30 + |part.localName| + |part.localExtra|, part.compressed)
  }

  /** Directory headers follow each other, whatever their extra fields and comments. */
  function HeaderAt(from: nat, parts: seq<Part>, k: nat): nat
    requires k <= |parts|
  {
    if k == 0 then from
    else HeaderAt(from, parts, k - 1) + 46 + |parts[k - 1].name| + |parts[k - 1].extra| + |parts[k - 1].comment|
  }

  /** The directory at `from` lists the parts; their local headers can be anywhere. */
  ghost predicate Says(a: Bytes, from: nat, parts: seq<Part>, offsets: seq<nat>) {
    && |offsets| == |parts|
    && forall k :: 0 <= k < |parts| ==>
         CentralSays(a, HeaderAt(from, parts, k), parts[k], offsets[k]) && LocalSays(a, offsets[k], parts[k])
  }

  predicate IsEndAt(a: Bytes, at: nat) { at + 4 <= |a| && a[at..at + 4] == [0x50, 0x4b, 0x05, 0x06] }

  /** The last end record in range is at `end`, and it points at a directory of `count` headers at `from`. */
  ghost predicate EndSays(a: Bytes, end: nat, from: nat, count: nat) {
    && end + 22 <= |a| <= end + 65557 && IsEndAt(a, end) && (forall i :: end < i <= |a| - 22 ==> !IsEndAt(a, i))
    && GetLE16(a, end + 10) == count && GetLE32(a, end + 16) == from
  }

  /** What a part contributes: nothing for a directory, else its data; only stored and deflated data are understood. */
  function Meaning(p: Platform, part: Part): Result<Option<ZipEntry>, ZipError> {
    match Normalize(p.decode(part.name))
    case Err(e) => Err(e)
    case Ok(name) =>
      if IsDirectoryName(name) then Ok(None)
      else if part.flags % 2 == 1 then Err(EncryptedEntry)
      else if part.compression == 0 then Ok(Some(ZipEntry(name, part.compressed)))
      else if part.compression != 8 then Err(UnsupportedCompression)
      else
        match p.inflate(part.compressed)
        case Some(data) => Ok(Some(ZipEntry(name, data)))
        case None => Err(InflateFailed)
  }

  function Meanings(p: Platform, parts: seq<Part>): Result<seq<ZipEntry>, ZipError> {
    if parts == [] then Ok([])
    else
      match Meaning(p, parts[0])
      case Err(e) => Err(e)
      case Ok(entry) => Prepend(Listed(entry), Meanings(p, parts[1..]))
  }

  /** The three signatures are the letters PK and two more bytes. */
  lemma Signatures(a: Bytes, at: nat)
    requires at + 4 <= |a|
    ensures GetLE32(a, at) == LOCAL_SIGNATURE <==> a[at..at + 4] == [0x50, 0x4b, 0x03, 0x04]
    ensures GetLE32(a, at) == CENTRAL_SIGNATURE <==> a[at..at + 4] == [0x50, 0x4b, 0x01, 0x02]
    ensures GetLE32(a, at) == END_SIGNATURE <==> a[at..at + 4] == [0x50, 0x4b, 0x05, 0x06]
  {
    var s := a[at..at + 4];
    assert s == [a[at], a[at + 1], a[at + 2], a[at + 3]];
  }

  lemma LocalMeans(p: Platform, a: Bytes, at: nat, part: Part)
    requires LocalSays(a, at, part)
    ensures ReadLocal(p, a, at, part.compression, |part.compressed|) ==
            if part.compression == 0 then Ok(part.compressed)
            else if part.compression != 8 then Err(UnsupportedCompression)
            else match p.inflate(part.compressed) case Some(data) => Ok(data) case None => Err(InflateFailed)
  {
    hide GetLE16, GetLE32;
    Signatures(a, at);
    var start := at + 30 + |part.localName| + |part.localExtra|;
    assert Slice(a, start, start + |part.compressed|) == part.compressed;
  }

  lemma StepMeans(p: Platform, a: Bytes, at: nat, part: Part, offset: nat)
    requires CentralSays(a, at, part, offset) && LocalSays(a, offset, part)
    ensures ReadStep(p, a, at) ==
            match Meaning(p, part)
            case Err(e) => Err(e)
            case Ok(entry) => Ok(Step(at + 46 + |part.name| + |part.extra| + |part.comment|, entry))
  {
    hide GetLE16, GetLE32, ReadLocal, Normalize, IsDirectoryName, LocalSays;
    Signatures(a, at);
    LocalMeans(p, a, offset, part);
    assert Slice(a, at + 46, at + 46 + |part.name|) == part.name;
  }

  lemma {:induction false} WalkMeans(p: Platform, a: Bytes, from: nat, parts: seq<Part>, offsets: seq<nat>, k: nat)
    requires Says(a, from, parts, offsets) && k <= |parts|
    ensures Walk(StepAt(p, a), HeaderAt(from, parts, k), |parts| - k) == Meanings(p, parts[k..])
    decreases |parts| - k
  {
    hide ReadStep, Meaning, CentralSays, LocalSays, Says, Meanings;
    MeaningsFrom(p, parts, k);
    if k < |parts| {
      SaysPart(a, from, parts, offsets, k);
      StepMeans(p, a, HeaderAt(from, parts, k), parts[k], offsets[k]);
      WalkMeans(p, a, from, parts, offsets, k + 1);
    }
  }

  lemma SaysPart(a: Bytes, from: nat, parts: seq<Part>, offsets: seq<nat>, k: nat)
    requires Says(a, from, parts, offsets) && k < |parts|
    ensures |offsets| == |parts|
    ensures CentralSays(a, HeaderAt(from, parts, k), parts[k], offsets[k]) && LocalSays(a, offsets[k], parts[k])
  {
    hide CentralSays, LocalSays, HeaderAt;
  }

  lemma MeaningsFrom(p: Platform, parts: seq<Part>, k: nat)
    requires k <= |parts|
    ensures k == |parts| ==> Meanings(p, parts[k..]) == Ok([])
    ensures k < |parts| ==>
              Meanings(p, parts[k..]) ==
              match Meaning(p, parts[k])
              case Err(e) => Err(e)
              case Ok(entry) => Prepend(Listed(entry), Meanings(p, parts[k + 1..]))
  {
    hide Meaning;
    if k < |parts| {
      assert parts[k..][1..] == parts[k + 1..];
    }
  }

  /**
    * Whoever wrote the archive, and whatever stands before, between and behind its records: the reader returns what the
    * parts its directory lists mean, in order, up to the first one it refuses.
    */
  lemma ReadMeans(p: Platform, a: Bytes, end: nat, from: nat, parts: seq<Part>, offsets: seq<nat>)
    requires EndSays(a, end, from, |parts|) && Says(a, from, parts, offsets)
    ensures ReadArchive(p, a) == Meanings(p, parts)
  {
    hide GetLE16, GetLE32, StepAt, Says, Walk, Meanings;
    EndIsFound(a, end);
    hide FindEndFrom, IsEndAt;
    WalkMeans(p, a, from, parts, offsets, 0);
    assert parts[0..] == parts;
  }

  lemma EndIsFound(a: Bytes, end: nat)
    requires end + 22 <= |a| <= end + 65557 && IsEndAt(a, end) && forall i :: end < i <= |a| - 22 ==> !IsEndAt(a, i)
    ensures FindEndFrom(a, |a| - 22) == Some(end)
  {
    Signatures(a, end);
    hide GetLE32;
    forall i | end < i <= |a| - 22
      ensures GetLE32(a, i) != END_SIGNATURE
    {
      assert !IsEndAt(a, i);
      Signatures(a, i);
    }
    FoundEndIsLast(a, |a| - 22, end);
  }

  /** The part carries the entry: unencrypted, stored or deflated, under a name that decodes to that of the entry. */
  ghost predicate Carries(p: Platform, part: Part, e: ZipEntry) {
    && part.Fits() && p.decode(part.name) == e.name && part.flags % 2 == 0
    && ((part.compression == 0 && part.compressed == e.data) || (part.compression == 8 && p.inflate(part.compressed) == Some(e.data)))
  }

  lemma CarriedMeans(p: Platform, part: Part, e: ZipEntry)
    requires Carries(p, part, e) && IsNormalized(e.name)
    ensures Meaning(p, part) == Ok(FileOf(e))
  {
    NormalizeLaws(e.name);
  }

  lemma {:induction false} CarriedMean(p: Platform, parts: seq<Part>, es: seq<ZipEntry>)
    requires CarriesAll(p, parts, es)
    ensures Meanings(p, parts) == Ok(Files(es))
  {
    if parts != [] {
      hide Meaning, Carries, IsNormalized, FileOf;
      CarriedMeans(p, parts[0], es[0]);
      CarriedMean(p, parts[1..], es[1..]);
    }
  }

  /** The first part that is not carried decides on the error, whatever follows it. */
  lemma {:induction false} FirstRefusal(p: Platform, parts: seq<Part>, es: seq<ZipEntry>, k: nat)
    requires k < |parts| && CarriesAll(p, parts[..k], es) && Meaning(p, parts[k]).Err?
    ensures Meanings(p, parts) == Err(Meaning(p, parts[k]).error)
    decreases k
  {
    if k > 0 {
      hide Meaning, Carries, IsNormalized, FileOf;
      assert parts[..k][0] == parts[0] && parts[..k][1..] == parts[1..][..k - 1];
      CarriedMeans(p, parts[0], es[0]);
      FirstRefusal(p, parts[1..], es[1..], k - 1);
    }
  }

  /** Which parts are refused, and why: unsafe names first, then encryption, other methods, and data that do not inflate. */
  lemma Refusals(p: Platform, part: Part)
    ensures var name, r := WithoutLeadingSlashes(ForwardSlashes(p.decode(part.name))), Meaning(p, part);
            && (r == Err(UnsafeName) <==> name == "" || HasDots(name))
            && (r == Ok(None) <==> name != "" && !HasDots(name) && name[|name| - 1] == '/')
            && (r.Ok? || r.error == UnsafeName || name[|name| - 1] != '/')
            && (r == Err(EncryptedEntry) <==> IsFileName(name) && part.flags % 2 == 1)
            && (r == Err(UnsupportedCompression) <==>
                IsFileName(name) && part.flags % 2 == 0 && part.compression != 0 && part.compression != 8)
            && (r == Err(InflateFailed) <==>
                IsFileName(name) && part.flags % 2 == 0 && part.compression == 8 && p.inflate(part.compressed).None?)
  {
    hide HasDots, WithoutLeadingSlashes, ForwardSlashes;
  }

  /** A directory header or local header that does not start with its signature is refused. */
  lemma BrokenHeaders(p: Platform, a: Bytes, at: nat, part: Part, offset: nat)
    ensures at + 4 <= |a| && a[at..at + 4] != [0x50, 0x4b, 0x01, 0x02] ==> ReadStep(p, a, at) == Err(BadCentralHeader)
    ensures at + 4 > |a| ==> ReadStep(p, a, at) == Err(OutOfRange)
    ensures CentralSays(a, at, part, offset) && IsFileName(WithoutLeadingSlashes(ForwardSlashes(p.decode(part.name))))
            && part.flags % 2 == 0 ==>
              && (offset + 4 > |a| ==> ReadStep(p, a, at) == Err(OutOfRange))
              && (offset + 4 <= |a| && a[offset..offset + 4] != [0x50, 0x4b, 0x03, 0x04] ==>
                    ReadStep(p, a, at) == Err(BadLocalHeader))
  {
    hide GetLE16, GetLE32, HasDots, WithoutLeadingSlashes, ForwardSlashes;
    if at + 4 <= |a| {
      Signatures(a, at);
    }
    if offset + 4 <= |a| {
      Signatures(a, offset);
    }
    if CentralSays(a, at, part, offset) {
      assert Slice(a, at + 46, at + 46 + |part.name|) == part.name;
    }
  }

  predicate IsFileName(name: string) { name != "" && !HasDots(name) && name[|name| - 1] != '/' }

  // ---- Archives as they are laid out

  lemma FieldRead(a: Bytes, at: nat, fields: seq<Field>, k: nat)
    requires Tiles(fields) && k < |fields| && Holds(a, at, Layout(fields))
    ensures fields[k].U16? ==> at + fields[k].at + 2 <= |a| && GetLE16(a, at + fields[k].at) == fields[k].value
    ensures fields[k].U32? ==> at + fields[k].at + 4 <= |a| && GetLE32(a, at + fields[k].at) == fields[k].value
  {
    hide Layout;
    hide LE16;
    hide LE32;
    hide GetLE16;
    hide GetLE32;
    var f := fields[k];
    FieldHeld(fields, k);
    HoldsWithin(a, at, Layout(fields), f.at, f.Encode());
    match f {
      case U16(_, v) => HoldsLE16(a, at + f.at, v);
      case U32(_, v) => HoldsLE32(a, at + f.at, v);
    }
  }

  lemma CentralRead(a: Bytes, at: nat, part: Part, offset: nat)
    requires part.Fits() && offset < 0x1_0000_0000
    requires Holds(a, at, CentralHeader(part, offset))
    ensures CentralSays(a, at, part, offset)
  {
    hide GetLE16, GetLE32, Layout;
    var fields := CentralFields(part, offset);
    HoldsParts(a, at, Layout(fields) + part.name + part.extra, part.comment);
    HoldsParts(a, at, Layout(fields) + part.name, part.extra);
    HoldsParts(a, at, Layout(fields), part.name);
    FieldRead(a, at, fields, 0);
    FieldRead(a, at, fields, 3);
    FieldRead(a, at, fields, 4);
    FieldRead(a, at, fields, 7);
    FieldRead(a, at, fields, 9);
    FieldRead(a, at, fields, 10);
    FieldRead(a, at, fields, 11);
    FieldRead(a, at, fields, 15);
    Signatures(a, at);
  }

  lemma LocalRead(a: Bytes, at: nat, part: Part)
    requires part.Fits()
    requires Holds(a, at, LocalHeader(part) + part.compressed)
    ensures LocalSays(a, at, part)
  {
    hide GetLE16, GetLE32, Layout;
    var fields := LocalFields(part);
    HoldsParts(a, at, LocalHeader(part), part.compressed);
    HoldsParts(a, at, Layout(fields) + part.localName, part.localExtra);
    HoldsParts(a, at, Layout(fields), part.localName);
    FieldRead(a, at, fields, 0);
    FieldRead(a, at, fields, 8);
    FieldRead(a, at, fields, 9);
    Signatures(a, at);
  }

  function Files(es: seq<ZipEntry>): seq<ZipEntry> {
    if es == [] then [] else Listed(FileOf(es[0])) + Files(es[1..])
  }

  ghost predicate CarriesAll(p: Platform, parts: seq<Part>, es: seq<ZipEntry>) {
    |parts| == |es| && forall i :: 0 <= i < |es| ==> Carries(p, parts[i], es[i]) && IsNormalized(es[i].name)
  }

  lemma LocalAt(parts: seq<Part>, k: nat)
    requires FitsArchive(parts) && k < |parts|
    ensures Holds(Archive(parts), Offset(parts, k), LocalHeader(parts[k]) + parts[k].compressed)
  {
    hide LocalHeader, CentralHeader, EndRecord, Concat;
    var records, directory := LocalRecords(parts), Concat(CentralRecords(parts));
    var end := EndRecord(|parts|, |directory|, |Concat(records)|);
    HoldsRecord([], records, directory + end, k);
    LocalsFirst(Concat(records), directory, end);
  }

  lemma LocalsFirst(locals: Bytes, directory: Bytes, end: Bytes)
    ensures locals + directory + end == [] + locals + (directory + end)
  {}

  lemma CentralAt(parts: seq<Part>, k: nat)
    requires FitsArchive(parts) && k < |parts|
    ensures Holds(Archive(parts), |Concat(LocalRecords(parts))| + |Concat(CentralRecords(parts)[..k])|,
                  CentralHeader(parts[k], Offset(parts, k)))
  {
    hide LocalHeader, CentralHeader, EndRecord;
    var records, locals := CentralRecords(parts), Concat(LocalRecords(parts));
    HoldsRecord(locals, records, EndRecord(|parts|, |Concat(records)|, |locals|), k);
  }

  /** Where record `k` starts when the records begin at `base`. */
  function Position(base: nat, records: seq<Bytes>, k: nat): nat
    requires k <= |records|
  {
    base + |Concat(records[..k])|
  }

  lemma PositionNext(base: nat, records: seq<Bytes>, k: nat)
    requires k < |records|
    ensures Position(base, records, k + 1) == Position(base, records, k) + |records[k]|
  {
    ConcatNext(records[..k], records[k]);
    assert records[..k + 1] == records[..k] + [records[k]];
  }

  function FileOf(e: ZipEntry): Option<ZipEntry> {
    if IsDirectoryName(e.name) then None else Some(e)
  }

  /** In an archive as laid out, the directory headers are where its records are. */
  lemma {:induction false} HeadersFollow(parts: seq<Part>, k: nat)
    requires FitsArchive(parts) && k <= |parts|
    ensures var base, records := |Concat(LocalRecords(parts))|, CentralRecords(parts);
            HeaderAt(base, parts, k) == Position(base, records, k)
    decreases k
  {
    hide CentralHeader, LocalHeader, Concat;
    var base, records := |Concat(LocalRecords(parts))|, CentralRecords(parts);
    if k > 0 {
      HeadersFollow(parts, k - 1);
      PositionNext(base, records, k - 1);
    } else {
      assert records[..0] == [];
      ConcatNothing();
    }
  }

  lemma ConcatNothing()
    ensures Concat([]) == []
  {}

  function Offsets(parts: seq<Part>): seq<nat>
    requires AllFit(parts)
  {
    seq(|parts|, k requires 0 <= k < |parts| => Offset(parts, k))
  }

  /** An archive as laid out says what its parts are. */
  lemma ArchiveSays(parts: seq<Part>)
    requires FitsArchive(parts)
    ensures Says(Archive(parts), |Concat(LocalRecords(parts))|, parts, Offsets(parts))
    ensures EndSays(Archive(parts), |Archive(parts)| - 22, |Concat(LocalRecords(parts))|, |parts|)
  {
    forall k: nat | k < |parts|
      ensures CentralSays(Archive(parts), HeaderAt(|Concat(LocalRecords(parts))|, parts, k), parts[k], Offset(parts, k))
      ensures LocalSays(Archive(parts), Offset(parts, k), parts[k])
    {
      PartIsSaid(parts, k);
    }
    EndRead(parts);
    hide CentralSays, LocalSays, Archive, EndSays, HeaderAt, Offset;
  }

  lemma PartIsSaid(parts: seq<Part>, k: nat)
    requires FitsArchive(parts) && k < |parts|
    ensures var a, base := Archive(parts), |Concat(LocalRecords(parts))|;
            CentralSays(a, HeaderAt(base, parts, k), parts[k], Offset(parts, k)) && LocalSays(a, Offset(parts, k), parts[k])
  {
    hide CentralSays, LocalSays, CentralHeader, LocalHeader, Archive, LocalRecords, CentralRecords, Offset;
    var a, base := Archive(parts), |Concat(LocalRecords(parts))|;
    LocalAt(parts, k);
    CentralAt(parts, k);
    HeadersFollow(parts, k);
    OffsetFits(parts, k);
    CentralRead(a, HeaderAt(base, parts, k), parts[k], Offset(parts, k));
    LocalRead(a, Offset(parts, k), parts[k]);
  }

  lemma OffsetFits(parts: seq<Part>, k: nat)
    requires Addressable(parts) && k < |parts|
    ensures parts[k].Fits() && Offset(parts, k) < 0x1_0000_0000
  {}

  lemma EndRead(parts: seq<Part>)
    requires FitsArchive(parts)
    ensures EndSays(Archive(parts), |Archive(parts)| - 22, |Concat(LocalRecords(parts))|, |parts|)
  {
    var a, locals, directory := Archive(parts), Concat(LocalRecords(parts)), Concat(CentralRecords(parts));
    hide Layout;
    hide GetLE16;
    hide GetLE32;
    hide CentralRecords;
    hide LocalRecords;
    var fields := EndFields(|parts|, |directory|, |locals|);
    HoldsBoth(locals + directory, Layout(fields));
    FieldRead(a, |a| - 22, fields, 0);
    FieldRead(a, |a| - 22, fields, 4);
    FieldRead(a, |a| - 22, fields, 6);
    Signatures(a, |a| - 22);
  }

  /**
    * Reading an archive of any stored or deflated entries, with any extra fields, comments and local names, yields the
    * entries, up to those that name directories.
    */
  lemma ReadUndoesArchive(p: Platform, parts: seq<Part>, es: seq<ZipEntry>)
    requires FitsArchive(parts) && CarriesAll(p, parts, es)
    ensures ReadArchive(p, Archive(parts)) == Ok(Files(es))
  {
    hide Archive, Says, EndSays, ReadArchive, CarriesAll, Meanings;
    ArchiveSays(parts);
    ReadMeans(p, Archive(parts), |Archive(parts)| - 22, |Concat(LocalRecords(parts))|, parts, Offsets(parts));
    CarriedMean(p, parts, es);
  }

  // ---- The code

  function Checksum(data: Bytes): nat {
    Crc32.FromBits(Crc32.Crc(data))
  }

  function Pack(p: Platform, e: ZipEntry): Part {
    var name := p.encode(e.name);
    Part(name, 0x0800, 8, Checksum(e.data), |e.data|, p.deflate(e.data), [], [], name, [])
  }

  /** The entries under their normalized names; absent if one of the names is unsafe. */
  function Normalized(es: seq<ZipEntry>): Option<seq<ZipEntry>> {
    if es == [] then Some([])
    else
      match (Normalized(es[..|es| - 1]), Normalize(es[|es| - 1].name))
      case (Some(init), Ok(name)) => Some(init + [ZipEntry(name, es[|es| - 1].data)])
      case _ => None
  }

  function PackAll(p: Platform, es: seq<ZipEntry>): (parts: seq<Part>)
    ensures |parts| == |es|
  {
    if es == [] then [] else PackAll(p, es[..|es| - 1]) + [Pack(p, es[|es| - 1])]
  }

  lemma {:induction false} NormalizedPrefix(es: seq<ZipEntry>, k: nat)
    requires k <= |es| && Normalized(es).Some?
    ensures |Normalized(es).value| == |es|
    ensures Normalized(es[..k]) == Some(Normalized(es).value[..k])
    decreases |es|
  {
    hide Normalize;
    if es == [] {
    } else if k == |es| {
      NormalizedPrefix(es[..|es| - 1], |es| - 1);
      assert es[..k] == es;
      assert Normalized(es).value[..k] == Normalized(es).value;
    } else {
      NormalizedPrefix(es[..|es| - 1], k);
      assert es[..|es| - 1][..k] == es[..k];
      assert Normalized(es).value[..k] == Normalized(es[..|es| - 1]).value[..k];
    }
  }

  lemma {:induction false} PackAllPrefix(p: Platform, es: seq<ZipEntry>, k: nat)
    requires k <= |es|
    ensures PackAll(p, es[..k]) == PackAll(p, es)[..k]
    ensures k < |es| ==> PackAll(p, es)[k] == Pack(p, es[k])
    decreases |es|
  {
    hide Pack;
    if k == |es| {
      assert es[..k] == es;
    } else {
      var n := |es| - 1;
      PackAllPrefix(p, es[..n], k);
      assert es[..n][..k] == es[..k];
    }
  }

  lemma LocalsGrow(parts: seq<Part>, next: Part)
    requires AllFit(parts) && next.Fits()
    ensures LocalRecords(parts + [next]) == LocalRecords(parts) + [LocalHeader(next) + next.compressed]
    ensures Concat(LocalRecords(parts + [next])) == Concat(LocalRecords(parts)) + LocalHeader(next) + next.compressed
  {
    hide LocalHeader;
    assert LocalRecords(parts + [next]) == LocalRecords(parts) + [LocalHeader(next) + next.compressed];
    ConcatNext(LocalRecords(parts), LocalHeader(next) + next.compressed);
  }

  lemma DirectoryGrows(parts: seq<Part>, next: Part)
    requires Addressable(parts) && next.Fits() && |Concat(LocalRecords(parts))| < 0x1_0000_0000
    ensures Addressable(parts + [next])
    ensures Concat(CentralRecords(parts + [next])) ==
            Concat(CentralRecords(parts)) + CentralHeader(next, |Concat(LocalRecords(parts))|)
  {
    hide LocalHeader;
    hide CentralHeader;
    var grown, n := parts + [next], |parts|;
    LocalsGrow(parts, next);
    assert LocalRecords(grown)[..n] == LocalRecords(parts);
    forall k | 0 <= k < n
      ensures Offset(grown, k) == Offset(parts, k)
    {
      assert LocalRecords(grown)[..k] == LocalRecords(parts)[..k];
    }
    assert CentralRecords(grown) == CentralRecords(parts) + [CentralHeader(next, Offset(grown, n))];
    ConcatNext(CentralRecords(parts), CentralHeader(next, Offset(grown, n)));
  }

  method ComputeChecksum(data: Bytes) returns (crc: nat)
    ensures crc == Checksum(data) < 0x1_0000_0000
  {
    var table := Crc32.BuildTable();
    var word := Crc32.ComputeCrc(data, table);
    Crc32.WordBound(word);
    crc := Crc32.FromBits(word);
  }

  /** Whatever the writer is given, a prefix that cannot be written spoils the whole. */
  lemma MisfitSpoils(p: Platform, es: seq<ZipEntry>, ns: seq<ZipEntry>, i: nat, e: ZipEntry)
    requires i < |es| && Normalized(es[..i]) == Some(ns) && AllFit(PackAll(p, ns))
    requires Normalize(es[i].name) == Ok(e.name) && e.data == es[i].data
    requires !Pack(p, e).Fits() || |Concat(LocalRecords(PackAll(p, ns)))| >= 0x1_0000_0000
    ensures Normalized(es).Some? ==> !FitsArchive(PackAll(p, Normalized(es).value))
  {
    hide Pack, LocalHeader, CentralHeader, Normalize, Addressable;
    if Normalized(es).Some? {
      MisfitIsUnaddressable(p, es, ns, i, e);
    }
  }

  /** An unsafe name comes before anything that does not fit. */
  ghost predicate UnsafeFirst(p: Platform, es: seq<ZipEntry>) {
    exists i :: 0 <= i < |es| && UnsafeAt(p, es, i)
  }

  ghost predicate UnsafeAt(p: Platform, es: seq<ZipEntry>, i: nat)
    requires i < |es|
  {
    Normalize(es[i].name).Err? && Normalized(es[..i]).Some? && Addressable(PackAll(p, Normalized(es[..i]).value))
  }

  /** Something that does not fit hides every unsafe name behind it. */
  lemma MisfitHides(p: Platform, es: seq<ZipEntry>, ns: seq<ZipEntry>, i: nat, e: ZipEntry)
    requires i < |es| && Normalized(es[..i]) == Some(ns) && AllFit(PackAll(p, ns))
    requires Normalize(es[i].name) == Ok(e.name) && e.data == es[i].data
    requires !Pack(p, e).Fits() || |Concat(LocalRecords(PackAll(p, ns)))| >= 0x1_0000_0000
    ensures !UnsafeFirst(p, es)
  {
    hide Pack, LocalHeader, CentralHeader, Normalize, Addressable;
    forall j: nat | j < |es|
      ensures !UnsafeAt(p, es, j)
    {
      if j < i && Normalized(es[..j]).Some? && Normalize(es[j].name).Err? {
        assert es[..i][j] == es[j];
        UnsafeSpoils(es[..i], j);
      } else if j > i && Normalized(es[..j]).Some? {
        assert es[..j][..i] == es[..i] && es[..j][i] == es[i];
        MisfitIsUnaddressable(p, es[..j], ns, i, e);
      }
    }
  }

  lemma MisfitIsUnaddressable(p: Platform, es: seq<ZipEntry>, ns: seq<ZipEntry>, i: nat, e: ZipEntry)
    requires i < |es| && Normalized(es[..i]) == Some(ns) && AllFit(PackAll(p, ns)) && Normalized(es).Some?
    requires Normalize(es[i].name) == Ok(e.name) && e.data == es[i].data
    requires !Pack(p, e).Fits() || |Concat(LocalRecords(PackAll(p, ns)))| >= 0x1_0000_0000
    ensures !Addressable(PackAll(p, Normalized(es).value))
  {
    hide Pack, LocalHeader, CentralHeader, Normalize;
    var all := Normalized(es).value;
    var parts := PackAll(p, all);
    NormalizedPrefix(es, i);
    NormalizedPrefix(es, i + 1);
    assert es[..i + 1][..i] == es[..i];
    assert all[..i + 1][i] == e;
    PackAllPrefix(p, all, i);
    assert parts[i] == Pack(p, e) && parts[..i] == PackAll(p, ns);
    if AllFit(parts) {
      assert LocalRecords(parts)[..i] == LocalRecords(parts[..i]);
      assert Offset(parts, i) >= 0x1_0000_0000;
    }
  }

  lemma NoUnsafeName(p: Platform, es: seq<ZipEntry>)
    requires Normalized(es).Some?
    ensures !UnsafeFirst(p, es)
  {
    hide Normalize;
    forall j: nat | j < |es|
      ensures !UnsafeAt(p, es, j)
    {
      if Normalize(es[j].name).Err? {
        UnsafeSpoils(es, j);
      }
    }
  }

  lemma UnsafeSpoils(es: seq<ZipEntry>, i: nat)
    requires i < |es| && Normalize(es[i].name).Err?
    ensures Normalized(es).None?
  {
    hide Normalize;
    if Normalized(es).Some? {
      NormalizedPrefix(es, i + 1);
    }
  }

  /** What the buffers of the writer hold after the entries before `i`. */
  ghost predicate Written(p: Platform, es: seq<ZipEntry>, i: nat, ns: seq<ZipEntry>,
                          localParts: seq<Bytes>, centralParts: seq<Bytes>, offset: nat) {
    && i <= |es| && Normalized(es[..i]) == Some(ns)
    && Addressable(PackAll(p, ns))
    && Concat(localParts) == Concat(LocalRecords(PackAll(p, ns))) && offset == |Concat(localParts)|
    && Concat(centralParts) == Concat(CentralRecords(PackAll(p, ns)))
  }

  lemma WriteNext(p: Platform, es: seq<ZipEntry>, i: nat, ns: seq<ZipEntry>, localParts: seq<Bytes>,
                  centralParts: seq<Bytes>, offset: nat, e: ZipEntry)
    requires Written(p, es, i, ns, localParts, centralParts, offset) && i < |es|
    requires Normalize(es[i].name) == Ok(e.name) && e.data == es[i].data
    requires Pack(p, e).Fits() && offset < 0x1_0000_0000
    ensures var part := Pack(p, e);
            Written(p, es, i + 1, ns + [e], localParts + [LocalHeader(part), part.compressed],
                    centralParts + [CentralHeader(part, offset)], offset + |LocalHeader(part)| + |part.compressed|)
  {
    hide Normalize, Pack, LocalHeader, CentralHeader, Concat;
    var part, done := Pack(p, e), PackAll(p, ns);
    assert es[..i + 1][..i] == es[..i];
    assert (ns + [e])[..|ns|] == ns;
    assert PackAll(p, ns + [e]) == done + [part];
    LocalsGrow(done, part);
    DirectoryGrows(done, part);
    ConcatNext(localParts, LocalHeader(part));
    ConcatNext(localParts + [LocalHeader(part)], part.compressed);
    assert localParts + [LocalHeader(part), part.compressed] == localParts + [LocalHeader(part)] + [part.compressed];
    ConcatNext(centralParts, CentralHeader(part, offset));
  }

  method WriteZipEntries(p: Platform, es: seq<ZipEntry>) returns (r: Result<Bytes, ZipError>)
    ensures r.Ok? <==> Normalized(es).Some? && FitsArchive(PackAll(p, Normalized(es).value))
    ensures r.Ok? ==> r.value == Archive(PackAll(p, Normalized(es).value)) && WellWritten(p, Normalized(es).value, r.value)
    ensures r.Err? ==> r.error == if UnsafeFirst(p, es) then UnsafeName else OutOfRange
  {
    hide LocalFields;
    hide CentralFields;
    hide EndFields;
    hide LocalRecords;
    hide CentralRecords;
    hide Checksum;
    hide Normalize;
    hide Layout;
    hide WellWritten;
    var localParts: seq<Bytes>, centralParts: seq<Bytes> := [], [];
    var offset: nat := 0;
    ghost var names: seq<ZipEntry> := [];
    NothingWritten(p, es);
    for i := 0 to |es|
      invariant Written(p, es, i, names, localParts, centralParts, offset)
    {
      var name := Normalize(es[i].name);
      if name.Err? {
        UnsafeSpoils(es, i);
        assert UnsafeAt(p, es, i);
        return Err(UnsafeName);
      }
      var e := ZipEntry(name.value, es[i].data);
      var crc := ComputeChecksum(e.data);
      var encoded := p.encode(e.name);
      var part := Part(encoded, 0x0800, 8, crc, |e.data|, p.deflate(e.data), [], [], encoded, []);
      if !part.Fits() || offset >= 0x1_0000_0000 {
        MisfitSpoils(p, es, names, i, e);
        MisfitHides(p, es, names, i, e);
        return Err(OutOfRange);
      }
      var localHeader := FillHeader(LocalFields(part), part.name);
      var centralHeader := FillHeader(CentralFields(part, offset), part.name);
      PlainHeaders(part, offset);
      WriteNext(p, es, i, names, localParts, centralParts, offset, e);
      localParts := localParts + [localHeader[..], part.compressed];
      centralParts := centralParts + [centralHeader[..]];
      offset := offset + localHeader.Length + |part.compressed|;
      names := names + [e];
    }
    assert es[..|es|] == es;
    NormalizedPrefix(es, 0);
    NoUnsafeName(p, es);
    var directory := Concat(centralParts);
    if |es| >= 0x1_0000 || |directory| >= 0x1_0000_0000 || offset >= 0x1_0000_0000 {
      return Err(OutOfRange);
    }
    var record := FillHeader(EndFields(|es|, |directory|, offset), []);
    assert record[..] + [] == record[..];
    ArchiveIsWellWritten(p, names);
    r := Ok(Concat(localParts) + directory + record[..]);
  }

  lemma PlainHeaders(part: Part, offset: nat)
    requires part.Fits() && offset < 0x1_0000_0000 && part.extra == part.comment == part.localExtra == []
    ensures LocalHeader(part) == Layout(LocalFields(part)) + part.localName
    ensures CentralHeader(part, offset) == Layout(CentralFields(part, offset)) + part.name
  {
    hide Layout, LocalFields, CentralFields;
  }

  lemma NothingWritten(p: Platform, es: seq<ZipEntry>)
    ensures Written(p, es, 0, [], [], [], 0)
  {}

  method FindEndOfCentralDirectory(a: Bytes) returns (r: Option<nat>)
    ensures r == if |a| < 22 then None else FindEndFrom(a, |a| - 22)
  {
    var offset := |a| - 22;
    while offset >= 0 && offset >= |a| - 65557
      invariant -1 <= offset <= |a| - 22 || |a| < 22
      invariant |a| >= 22 ==> FindEndFrom(a, |a| - 22) == FindEndFrom(a, offset)
      decreases offset
    {
      if GetLE32(a, offset) == END_SIGNATURE {
        return Some(offset);
      }
      offset := offset - 1;
    }
    r := None;
  }

  /** The search finds the last end signature among the last 65557 bytes. */
  lemma {:induction false} FoundEndIsLast(a: Bytes, offset: int, at: nat)
    requires offset + 22 <= |a|
    ensures FindEndFrom(a, offset) == Some(at) <==>
            && |a| - 65557 <= at <= offset && GetLE32(a, at) == END_SIGNATURE
            && forall i :: at < i <= offset ==> GetLE32(a, i) != END_SIGNATURE
    decreases offset
  {
    hide GetLE32;
    if offset >= 0 && offset >= |a| - 65557 && GetLE32(a, offset) != END_SIGNATURE {
      FoundEndIsLast(a, offset - 1, at);
    }
  }

  method ReadZipEntries(p: Platform, a: Bytes) returns (r: Result<seq<ZipEntry>, ZipError>)
    ensures r == ReadArchive(p, a)
  {
    hide ReadStep;
    var found := FindEndOfCentralDirectory(a);
    if found.None? {
      return Err(NoEndRecord);
    }
    var count := GetLE16(a, found.value + 10);
    var start := GetLE32(a, found.value + 16);
    var entries: seq<ZipEntry> := [];
    var cursor := start;
    PrependNothing(Walk(StepAt(p, a), start, count));
    for index := 0 to count
      invariant Walk(StepAt(p, a), start, count) == Prepend(entries, Walk(StepAt(p, a), cursor, count - index))
    {
      var step := ReadStep(p, a, cursor);
      if step.Err? {
        return Err(step.error);
      }
      ghost var rest := Walk(StepAt(p, a), step.value.next, count - index - 1);
      PrependTwice(entries, Listed(step.value.entry), rest);
      entries := entries + Listed(step.value.entry);
      cursor := step.value.next;
    }
    assert entries + [] == entries;
    r := Ok(entries);
  }

  // ---- The law of the pair

  lemma {:induction false} NormalizedCarried(p: Platform, es: seq<ZipEntry>, ns: seq<ZipEntry>)
    requires Lawful(p) && Normalized(es) == Some(ns) && AllFit(PackAll(p, ns))
    ensures CarriesAll(p, PackAll(p, ns), ns)
  {
    forall i | 0 <= i < |ns|
      ensures Carries(p, PackAll(p, ns)[i], ns[i]) && IsNormalized(ns[i].name)
    {
      PackAllPrefix(p, ns, i);
      NormalizedNames(es, ns, i);
    }
  }

  lemma {:induction false} NormalizedNames(es: seq<ZipEntry>, ns: seq<ZipEntry>, i: nat)
    requires Normalized(es) == Some(ns) && i < |ns|
    ensures |es| == |ns| && Normalize(es[i].name) == Ok(ns[i].name) && es[i].data == ns[i].data
    ensures IsNormalized(ns[i].name)
  {
    NormalizedPrefix(es, 0);
    NormalizedPrefix(es, i + 1);
    assert es[..i + 1][i] == es[i] && ns[..i + 1][i] == ns[i];
    NormalizeLaws(es[i].name);
  }

  /** Whenever writing succeeds, reading gives back the entries that are not directories, under normalized names. */
  lemma ReadUndoesWrite(p: Platform, es: seq<ZipEntry>, ns: seq<ZipEntry>)
    requires Lawful(p) && Normalized(es) == Some(ns) && FitsArchive(PackAll(p, ns))
    ensures ReadArchive(p, Archive(PackAll(p, ns))) == Ok(Files(ns))
  {
    hide ReadArchive;
    hide Archive;
    NormalizedCarried(p, es, ns);
    ReadUndoesArchive(p, PackAll(p, ns), ns);
  }

  /** The round trip is exact for exactly the lists of files under normalized names. */
  lemma RoundTripIsExact(es: seq<ZipEntry>)
    ensures Normalized(es).Some? && Files(Normalized(es).value) == es <==>
            forall i :: 0 <= i < |es| ==> IsNormalized(es[i].name) && !IsDirectoryName(es[i].name)
  {
    if Normalized(es).Some? {
      NormalizedPrefix(es, 0);
      var ns := Normalized(es).value;
      forall i | 0 <= i < |ns|
        ensures Normalize(es[i].name) == Ok(ns[i].name) && es[i].data == ns[i].data
      {
        NormalizedNames(es, ns, i);
      }
      if Files(ns) == es {
        FilesLength(ns);
        AllFilesKept(ns);
        forall i | 0 <= i < |es|
          ensures IsNormalized(es[i].name) && !IsDirectoryName(es[i].name)
        {
          NormalizedNames(es, ns, i);
        }
      }
    }
    if forall i :: 0 <= i < |es| ==> IsNormalized(es[i].name) && !IsDirectoryName(es[i].name) {
      NormalNamesKept(es);
      AllFilesKept(es);
    }
  }

  lemma {:induction false} FilesLength(es: seq<ZipEntry>)
    ensures |Files(es)| <= |es|
    ensures |Files(es)| == |es| ==> forall i :: 0 <= i < |es| ==> !IsDirectoryName(es[i].name)
  {
    if es != [] {
      FilesLength(es[1..]);
      forall i | 0 < i < |es|
        ensures es[i] == es[1..][i - 1]
      {}
    }
  }

  lemma {:induction false} AllFilesKept(es: seq<ZipEntry>)
    ensures (forall i :: 0 <= i < |es| ==> !IsDirectoryName(es[i].name)) ==> Files(es) == es
  {
    if es != [] {
      AllFilesKept(es[1..]);
    }
  }

  lemma {:induction false} NormalNamesKept(es: seq<ZipEntry>)
    requires forall i :: 0 <= i < |es| ==> IsNormalized(es[i].name)
    ensures Normalized(es) == Some(es)
  {
    if es != [] {
      NormalNamesKept(es[..|es| - 1]);
      NormalizeLaws(es[|es| - 1].name);
      assert es == es[..|es| - 1] + [es[|es| - 1]];
    }
  }

  ghost predicate AllFiles(es: seq<ZipEntry>) {
    forall i :: 0 <= i < |es| ==> IsNormalized(es[i].name) && !IsDirectoryName(es[i].name)
  }

  /** Whatever bytes it is given, the reader only ever lists files under normalized names. */
  lemma {:induction false} WalkListsFiles(p: Platform, a: Bytes, cursor: nat, count: nat)
    ensures Walk(StepAt(p, a), cursor, count).Ok? ==> AllFiles(Walk(StepAt(p, a), cursor, count).value)
    decreases count
  {
    hide ReadStep;
    hide IsNormalized;
    hide IsDirectoryName;
    if count > 0 && Walk(StepAt(p, a), cursor, count).Ok? {
      var step := StepAt(p, a)(cursor).value;
      WalkListsFiles(p, a, step.next, count - 1);
      StepListsFile(p, a, cursor);
    }
  }

  lemma StepListsFile(p: Platform, a: Bytes, cursor: nat)
    ensures ReadStep(p, a, cursor).Ok? ==>
              match ReadStep(p, a, cursor).value.entry
              case Some(e) => IsNormalized(e.name) && !IsDirectoryName(e.name)
              case None => true
  {
    hide ReadLocal;
    hide IsNormalized;
    hide IsDirectoryName;
    hide Normalize;
    hide GetLE16;
    hide GetLE32;
    if cursor + 46 <= |a| {
      var nameStart := cursor + 46;
      NormalizeLaws(p.decode(Slice(a, nameStart, nameStart + GetLE16(a, cursor + 28))));
    }
  }

  /** A package of files that fits is written and read back as it is. */
  lemma FilesRoundTrip(p: Platform, es: seq<ZipEntry>)
    requires Lawful(p) && AllFiles(es)
    ensures Normalized(es) == Some(es)
    ensures FitsArchive(PackAll(p, es)) ==> ReadArchive(p, Archive(PackAll(p, es))) == Ok(es)
  {
    hide ReadArchive;
    hide Archive;
    NormalNamesKept(es);
    AllFilesKept(es);
    if FitsArchive(PackAll(p, es)) {
      ReadUndoesWrite(p, es, es);
    }
  }

  // ---- What a written archive holds, field by field

  /** The directory header at `at` of an entry whose local header is at `offset`, in the places of section 4.3.12. */
  ghost predicate CentralHeaderOf(a: Bytes, at: nat, name: Bytes, data: Bytes, stored: Bytes, offset: nat) {
    && at + 46 + |name| <= |a|
    && a[at..at + 4] == [0x50, 0x4b, 0x01, 0x02] && GetLE16(a, at + 4) == 20 && GetLE16(a, at + 6) == 20
    && GetLE16(a, at + 8) == 0x0800 && GetLE16(a, at + 10) == 8 && GetLE32(a, at + 12) == 0
    && GetLE32(a, at + 16) == Crc32.FromBits(Crc32.Crc(data))
    && GetLE32(a, at + 20) == |stored| && GetLE32(a, at + 24) == |data|
    && GetLE16(a, at + 28) == |name| && GetLE16(a, at + 30) == 0 && GetLE16(a, at + 32) == 0
    && GetLE16(a, at + 34) == 0 && GetLE16(a, at + 36) == 0 && GetLE32(a, at + 38) == 0 && GetLE32(a, at + 42) == offset
    && a[at + 46..at + 46 + |name|] == name
  }

  /** The local header at `at` and the stored data behind it, in the places of section 4.3.7. */
  ghost predicate LocalHeaderOf(a: Bytes, at: nat, name: Bytes, data: Bytes, stored: Bytes) {
    && at + 30 + |name| + |stored| <= |a|
    && a[at..at + 4] == [0x50, 0x4b, 0x03, 0x04] && GetLE16(a, at + 4) == 20 && GetLE16(a, at + 6) == 0x0800
    && GetLE16(a, at + 8) == 8 && GetLE32(a, at + 10) == 0
    && GetLE32(a, at + 14) == Crc32.FromBits(Crc32.Crc(data))
    && GetLE32(a, at + 18) == |stored| && GetLE32(a, at + 22) == |data|
    && GetLE16(a, at + 26) == |name| && GetLE16(a, at + 28) == 0
    && a[at + 30..at + 30 + |name|] == name && a[at + 30 + |name|..at + 30 + |name| + |stored|] == stored
  }

  /** The end record at `at`, in the places of section 4.3.16. */
  ghost predicate EndRecordOf(a: Bytes, at: nat, count: nat, length: nat, from: nat) {
    && at + 22 == |a|
    && a[at..at + 4] == [0x50, 0x4b, 0x05, 0x06] && GetLE16(a, at + 4) == 0 && GetLE16(a, at + 6) == 0
    && GetLE16(a, at + 8) == count && GetLE16(a, at + 10) == count
    && GetLE32(a, at + 12) == length && GetLE32(a, at + 16) == from && GetLE16(a, at + 20) == 0
  }

  /** Where the record of entry `k` begins when each takes `fixed` bytes, its name, and its stored data if `full`. */
  function RecordAt(p: Platform, es: seq<ZipEntry>, k: nat, fixed: nat, full: bool): nat
    requires k <= |es|
  {
    if k == 0 then 0
    else
      var e := es[k - 1];
      RecordAt(p, es, k - 1, fixed, full) + fixed + |p.encode(e.name)| + (if full then |p.deflate(e.data)| else 0)
  }

  /**
    * A written archive is the local headers with their data, the directory and the end record, each header with the
    * checksum, the lengths and the name of its entry.
    */
  ghost predicate WellWritten(p: Platform, es: seq<ZipEntry>, a: Bytes) {
    var n := |es|;
    var from, length := RecordAt(p, es, n, 30, true), RecordAt(p, es, n, 46, false);
    && |a| == from + length + 22 && EndRecordOf(a, from + length, n, length, from)
    && forall k :: 0 <= k < n ==>
         var name, data, stored := p.encode(es[k].name), es[k].data, p.deflate(es[k].data);
         && LocalHeaderOf(a, RecordAt(p, es, k, 30, true), name, data, stored)
         && CentralHeaderOf(a, from + RecordAt(p, es, k, 46, false), name, data, stored, RecordAt(p, es, k, 30, true))
  }

  lemma CentralHolds(a: Bytes, at: nat, part: Part, offset: nat, data: Bytes)
    requires part.Fits() && offset < 0x1_0000_0000 && Holds(a, at, CentralHeader(part, offset))
    requires part.flags == 0x0800 && part.compression == 8 && part.extra == part.comment == []
    requires part.crc == Checksum(data) && part.size == |data|
    ensures CentralHeaderOf(a, at, part.name, data, part.compressed, offset)
  {
    hide GetLE16, GetLE32, Layout, Crc32.Crc, Crc32.FromBits;
    var fields := CentralFields(part, offset);
    CentralRead(a, at, part, offset);
    PlainHeaders(part.(localExtra := []), offset);
    HoldsParts(a, at, Layout(fields) + part.name + part.extra, part.comment);
    HoldsParts(a, at, Layout(fields) + part.name, part.extra);
    HoldsParts(a, at, Layout(fields), part.name);
    FieldRead(a, at, fields, 1);
    FieldRead(a, at, fields, 2);
    FieldRead(a, at, fields, 5);
    FieldRead(a, at, fields, 6);
    FieldRead(a, at, fields, 8);
    FieldRead(a, at, fields, 12);
    FieldRead(a, at, fields, 13);
    FieldRead(a, at, fields, 14);
  }

  lemma LocalHolds(a: Bytes, at: nat, part: Part, data: Bytes)
    requires part.Fits() && Holds(a, at, LocalHeader(part) + part.compressed)
    requires part.flags == 0x0800 && part.compression == 8 && part.localExtra == [] && part.localName == part.name
    requires part.crc == Checksum(data) && part.size == |data|
    ensures LocalHeaderOf(a, at, part.name, data, part.compressed)
  {
    hide GetLE16, GetLE32, Layout, Crc32.Crc, Crc32.FromBits;
    var fields := LocalFields(part);
    LocalRead(a, at, part);
    HoldsParts(a, at, LocalHeader(part), part.compressed);
    HoldsParts(a, at, Layout(fields) + part.localName, part.localExtra);
    HoldsParts(a, at, Layout(fields), part.localName);
    FieldRead(a, at, fields, 1);
    FieldRead(a, at, fields, 2);
    FieldRead(a, at, fields, 3);
    FieldRead(a, at, fields, 4);
    FieldRead(a, at, fields, 5);
    FieldRead(a, at, fields, 6);
    FieldRead(a, at, fields, 7);
  }

  lemma EndHolds(parts: seq<Part>)
    requires FitsArchive(parts)
    ensures var a, from, length := Archive(parts), |Concat(LocalRecords(parts))|, |Concat(CentralRecords(parts))|;
            |a| == from + length + 22 && EndRecordOf(a, from + length, |parts|, length, from)
  {
    hide EndRecordOf, EndRecord, CentralRecords, LocalRecords, Concat;
    var a, locals, directory := Archive(parts), Concat(LocalRecords(parts)), Concat(CentralRecords(parts));
    HoldsBoth(locals + directory, EndRecord(|parts|, |directory|, |locals|));
    EndRecordHolds(a, |locals| + |directory|, |parts|, |directory|, |locals|);
  }

  lemma EndRecordHolds(a: Bytes, at: nat, count: nat, length: nat, from: nat)
    requires count < 0x1_0000 && length < 0x1_0000_0000 && from < 0x1_0000_0000
    requires |a| == at + 22 && Holds(a, at, EndRecord(count, length, from))
    ensures EndRecordOf(a, at, count, length, from)
  {
    hide Layout, GetLE16, GetLE32;
    var fields := EndFields(count, length, from);
    FieldRead(a, at, fields, 0);
    FieldRead(a, at, fields, 1);
    FieldRead(a, at, fields, 2);
    FieldRead(a, at, fields, 3);
    FieldRead(a, at, fields, 4);
    FieldRead(a, at, fields, 5);
    FieldRead(a, at, fields, 6);
    FieldRead(a, at, fields, 7);
    Signatures(a, at);
  }

  lemma {:induction false} RecordsFollow(p: Platform, es: seq<ZipEntry>, k: nat)
    requires FitsArchive(PackAll(p, es)) && k <= |es|
    ensures var parts := PackAll(p, es);
            && Position(0, LocalRecords(parts), k) == RecordAt(p, es, k, 30, true)
            && Position(0, CentralRecords(parts), k) == RecordAt(p, es, k, 46, false)
    decreases k
  {
    hide CentralHeader, LocalHeader, Concat, Checksum;
    var parts := PackAll(p, es);
    if k > 0 {
      RecordsFollow(p, es, k - 1);
      PositionNext(0, LocalRecords(parts), k - 1);
      PositionNext(0, CentralRecords(parts), k - 1);
      PackAllPrefix(p, es, k - 1);
    } else {
      ConcatNothing();
      assert LocalRecords(parts)[..0] == [] && CentralRecords(parts)[..0] == [];
    }
  }

  lemma RecordsEnd(p: Platform, es: seq<ZipEntry>)
    requires FitsArchive(PackAll(p, es))
    ensures |Concat(LocalRecords(PackAll(p, es)))| == RecordAt(p, es, |es|, 30, true)
    ensures |Concat(CentralRecords(PackAll(p, es)))| == RecordAt(p, es, |es|, 46, false)
  {
    hide LocalRecords, CentralRecords, PackAll, Concat;
    RecordsFollow(p, es, |es|);
    var locals, centrals := LocalRecords(PackAll(p, es)), CentralRecords(PackAll(p, es));
    assert locals[..|es|] == locals && centrals[..|es|] == centrals;
  }

  lemma EntryIsWritten(p: Platform, es: seq<ZipEntry>, k: nat)
    requires FitsArchive(PackAll(p, es)) && k < |es|
    ensures var a, from := Archive(PackAll(p, es)), RecordAt(p, es, |es|, 30, true);
            var name, data, stored := p.encode(es[k].name), es[k].data, p.deflate(es[k].data);
            && LocalHeaderOf(a, RecordAt(p, es, k, 30, true), name, data, stored)
            && CentralHeaderOf(a, from + RecordAt(p, es, k, 46, false), name, data, stored, RecordAt(p, es, k, 30, true))
  {
    hide LocalHeaderOf, CentralHeaderOf, RecordAt, PackAll, Archive, FitsArchive;
    LocalIsWritten(p, es, k);
    CentralIsWritten(p, es, k);
  }

  lemma LocalIsWritten(p: Platform, es: seq<ZipEntry>, k: nat)
    requires FitsArchive(PackAll(p, es)) && k < |es|
    ensures LocalHeaderOf(Archive(PackAll(p, es)), RecordAt(p, es, k, 30, true), p.encode(es[k].name), es[k].data, p.deflate(es[k].data))
  {
    hide LocalHeaderOf, RecordAt, LocalRecords, CentralRecords, PackAll, Concat, Archive, CentralHeader, LocalHeader, Checksum;
    var parts := PackAll(p, es);
    PackAllPrefix(p, es, k);
    LocalAt(parts, k);
    OffsetFits(parts, k);
    RecordsFollow(p, es, k);
    LocalHolds(Archive(parts), Offset(parts, k), parts[k], es[k].data);
  }

  lemma CentralIsWritten(p: Platform, es: seq<ZipEntry>, k: nat)
    requires FitsArchive(PackAll(p, es)) && k < |es|
    ensures CentralHeaderOf(Archive(PackAll(p, es)), RecordAt(p, es, |es|, 30, true) + RecordAt(p, es, k, 46, false),
                            p.encode(es[k].name), es[k].data, p.deflate(es[k].data), RecordAt(p, es, k, 30, true))
  {
    hide CentralHeaderOf, RecordAt, LocalRecords, CentralRecords, PackAll, Concat, Archive, CentralHeader, LocalHeader, Checksum;
    var parts := PackAll(p, es);
    PackAllPrefix(p, es, k);
    CentralAt(parts, k);
    OffsetFits(parts, k);
    RecordsFollow(p, es, k);
    RecordsEnd(p, es);
    CentralHolds(Archive(parts), RecordAt(p, es, |es|, 30, true) + RecordAt(p, es, k, 46, false), parts[k], Offset(parts, k), es[k].data);
  }

  /** What the writer makes of entries that fit is well written. */
  lemma ArchiveIsWellWritten(p: Platform, es: seq<ZipEntry>)
    requires FitsArchive(PackAll(p, es))
    ensures WellWritten(p, es, Archive(PackAll(p, es)))
  {
    hide LocalRecords, CentralRecords, PackAll, Concat, Archive, FitsArchive, LocalHeaderOf, CentralHeaderOf, EndRecordOf, RecordAt;
    forall k: nat | k < |es|
      ensures var a, from := Archive(PackAll(p, es)), RecordAt(p, es, |es|, 30, true);
              var name, data, stored := p.encode(es[k].name), es[k].data, p.deflate(es[k].data);
              && LocalHeaderOf(a, RecordAt(p, es, k, 30, true), name, data, stored)
              && CentralHeaderOf(a, from + RecordAt(p, es, k, 46, false), name, data, stored, RecordAt(p, es, k, 30, true))
    {
      EntryIsWritten(p, es, k);
    }
    EndHolds(PackAll(p, es));
    RecordsEnd(p, es);
  }
}
