/**
  * The Live worker's box walker and fragment splitter (section 4.2 of ISO/IEC 14496-12).
  */
module IsoBoxes {
  import opened Members
  import opened Prelude
  import opened Bytes

  type Kind = Bytes

  const FTYP: Kind := [0x66, 0x74, 0x79, 0x70]
  const MOOV: Kind := [0x6d, 0x6f, 0x6f, 0x76]
  const FREE: Kind := [0x66, 0x72, 0x65, 0x65]
  const SKIP: Kind := [0x73, 0x6b, 0x69, 0x70]
  const STYP: Kind := [0x73, 0x74, 0x79, 0x70]
  const MOOF: Kind := [0x6d, 0x6f, 0x6f, 0x66]
  const MDAT: Kind := [0x6d, 0x64, 0x61, 0x74]

  datatype Row = Row(start: nat, end: nat, kind: Kind)

  datatype BoxError = Truncated | BoundsInvalid | SingleMoofRequired | MoofMdatRequired | InitRequired

  function GetBE64(b: Bytes, off: nat): nat
    requires off + 8 <= |b|
  {
    0x1_0000_0000 * GetBE32(b, off) + GetBE32(b, off + 4)
  }

  // ---- The walk

  /** The size of the box at `offset`: a 32-bit field, which is 1 for a 64-bit size and 0 for the rest of the data. */
  function BoxSize(data: Bytes, offset: nat): (r: Result<nat, BoxError>)
    requires offset < |data|
    ensures r.Ok? ==> 8 <= r.value <= |data| - offset
  {
    if offset + 8 > |data| then Err(Truncated)
    else
      var size := GetBE32(data, offset);
      if size == 1 then
        if offset + 16 > |data| then Err(Truncated)
        else
          var large := GetBE64(data, offset + 8);
          if large < 16 || offset + large > |data| then Err(BoundsInvalid) else Ok(large)
      else
        var actual := if size == 0 then |data| - offset else size;
        if actual < 8 || offset + actual > |data| then Err(BoundsInvalid) else Ok(actual)
  }

  function KindAt(data: Bytes, offset: nat): Kind
    requires offset + 8 <= |data|
  {
    data[offset + 4..offset + 8]
  }

  function Boxes(data: Bytes, offset: nat): Result<seq<Row>, BoxError>
    decreases |data| - offset
  {
    if offset >= |data| then Ok([])
    else
      match BoxSize(data, offset)
      case Err(e) => Err(e)
      case Ok(size) => Prepend([Row(offset, offset + size, KindAt(data, offset))], Boxes(data, offset + size))
  }

  method ParseBoxes(data: Bytes) returns (r: Result<seq<Row>, BoxError>)
    ensures r == Boxes(data, 0)
  {
    hide BoxSize;
    var rows: seq<Row> := [];
    var offset: nat := 0;
    PrependNothing(Boxes(data, 0));
    while offset < |data|
      invariant Boxes(data, 0) == Prepend(rows, Boxes(data, offset))
      decreases |data| - offset
    {
      var size := BoxSize(data, offset);
      if size.Err? {
        return Err(size.error);
      }
      var row := Row(offset, offset + size.value, KindAt(data, offset));
      PrependTwice(rows, [row], Boxes(data, offset + size.value));
      rows := rows + [row];
      offset := offset + size.value;
    }
    assert rows + [] == rows;
    r := Ok(rows);
  }

  // ---- A parse tiles the data

  /** The rows follow each other from `from` to `to`, each at least a header long. */
  ghost predicate Tile(rows: seq<Row>, from: nat, to: nat)
    decreases |rows|
  {
    if rows == [] then from == to
    else rows[0].start == from && from + 8 <= rows[0].end && Tile(rows[1..], rows[0].end, to)
  }

  lemma {:induction false} ParseTiles(data: Bytes, offset: nat)
    requires offset <= |data| && Boxes(data, offset).Ok?
    ensures Tile(Boxes(data, offset).value, offset, |data|)
    decreases |data| - offset
  {
    hide BoxSize;
    if offset < |data| {
      var size := BoxSize(data, offset).value;
      ParseTiles(data, offset + size);
      assert ([Row(offset, offset + size, KindAt(data, offset))] + Boxes(data, offset + size).value)[1..]
          == Boxes(data, offset + size).value;
    }
  }

  // ---- Parsing composes

  /** The size field asks for the rest of the data. */
  predicate ToEnd(data: Bytes, row: Row) {
    row.start + 4 <= |data| && GetBE32(data, row.start) == 0
  }

  ghost predicate NoneToEnd(data: Bytes, rows: seq<Row>) {
    forall i :: 0 <= i < |rows| ==> !ToEnd(data, rows[i])
  }

  function Shift(rows: seq<Row>, d: nat): (r: seq<Row>)
    ensures |r| == |rows|
    ensures forall i :: 0 <= i < |rows| ==> r[i] == Row(rows[i].start + d, rows[i].end + d, rows[i].kind)
  {
    if rows == [] then [] else [Row(rows[0].start + d, rows[0].end + d, rows[0].kind)] + Shift(rows[1..], d)
  }

  function ShiftResult(r: Result<seq<Row>, BoxError>, d: nat): Result<seq<Row>, BoxError> {
    match r
    case Ok(rows) => Ok(Shift(rows, d))
    case Err(e) => Err(e)
  }

  lemma SizeBehind(x: Bytes, y: Bytes, o: nat)
    requires o < |y|
    ensures BoxSize(x + y, |x| + o) == BoxSize(y, o)
    ensures o + 8 <= |y| ==> KindAt(x + y, |x| + o) == KindAt(y, o)
  {
    if o + 8 <= |y| {
      assert GetBE32(x + y, |x| + o) == GetBE32(y, o);
      assert (x + y)[|x| + o + 4..|x| + o + 8] == y[o + 4..o + 8];
      if o + 16 <= |y| {
        assert GetBE64(x + y, |x| + o + 8) == GetBE64(y, o + 8);
      }
    }
  }

  lemma SizeBefore(x: Bytes, y: Bytes, o: nat)
    requires o < |x| && BoxSize(x, o).Ok? && GetBE32(x, o) != 0
    ensures BoxSize(x + y, o) == BoxSize(x, o) && KindAt(x + y, o) == KindAt(x, o)
  {
    assert GetBE32(x + y, o) == GetBE32(x, o);
    assert (x + y)[o + 4..o + 8] == x[o + 4..o + 8];
    if o + 16 <= |x| {
      assert GetBE64(x + y, o + 8) == GetBE64(x, o + 8);
    }
  }

  lemma {:induction false} ParseBehind(x: Bytes, y: Bytes, o: nat)
    ensures Boxes(x + y, |x| + o) == ShiftResult(Boxes(y, o), |x|)
    decreases |y| - o
  {
    hide BoxSize;
    hide KindAt;
    if o < |y| {
      SizeBehind(x, y, o);
      var size := BoxSize(y, o);
      if size.Ok? {
        ParseBehind(x, y, o + size.value);
        var row := Row(o, o + size.value, KindAt(y, o));
        var rest := Boxes(y, o + size.value);
        if rest.Ok? {
          assert ([row] + rest.value)[1..] == rest.value;
        }
      }
    }
  }

  /** Parsing `x` and then `y` is parsing `x` followed by `y` moved, errors included. */
  lemma {:induction false} ParseComposes(x: Bytes, y: Bytes, o: nat)
    requires o <= |x| && Boxes(x, o).Ok? && NoneToEnd(x, Boxes(x, o).value)
    ensures Boxes(x + y, o) == Prepend(Boxes(x, o).value, ShiftResult(Boxes(y, 0), |x|))
    decreases |x| - o
  {
    hide BoxSize;
    hide KindAt;
    hide GetBE32;
    if o == |x| {
      ParseBehind(x, y, 0);
      var r := ShiftResult(Boxes(y, 0), |x|);
      assert r.Ok? ==> [] + r.value == r.value;
    } else {
      var size := BoxSize(x, o).value;
      var row := Row(o, o + size, KindAt(x, o));
      var rest := Boxes(x, o + size).value;
      assert Boxes(x, o).value == [row] + rest;
      assert !ToEnd(x, Boxes(x, o).value[0]);
      assert forall i :: 0 <= i < |rest| ==> rest[i] == Boxes(x, o).value[i + 1];
      SizeBefore(x, y, o);
      ParseComposes(x, y, o + size);
      PrependTwice([row], rest, ShiftResult(Boxes(y, 0), |x|));
    }
  }

  // ---- Cutting boxes out and joining them

  /** The row is a box of the data. */
  ghost predicate IsBox(data: Bytes, row: Row) {
    && row.start < |data| && row.start + 8 <= row.end <= |data|
    && BoxSize(data, row.start) == Ok(row.end - row.start)
    && row.kind == KindAt(data, row.start)
  }

  /** Every parsed row is a box, and only the last one can reach to the end by its size field. */
  lemma {:induction false} RowsAreBoxes(data: Bytes, offset: nat, i: nat)
    requires Boxes(data, offset).Ok? && i < |Boxes(data, offset).value|
    ensures var rows := Boxes(data, offset).value;
            IsBox(data, rows[i]) && (i + 1 < |rows| ==> !ToEnd(data, rows[i]))
    decreases |data| - offset
  {
    var size := BoxSize(data, offset).value;
    var row := Row(offset, offset + size, KindAt(data, offset));
    var rest := Boxes(data, offset + size).value;
    assert Boxes(data, offset).value == [row] + rest;
    if i == 0 {
      assert ToEnd(data, row) ==> offset + size == |data|;
    } else {
      RowsAreBoxes(data, offset + size, i - 1);
    }
  }

  function Cut(data: Bytes, row: Row): Bytes
    requires row.start <= row.end <= |data|
  {
    data[row.start..row.end]
  }

  lemma CutParses(data: Bytes, row: Row)
    requires IsBox(data, row)
    ensures Boxes(Cut(data, row), 0) == Ok([Row(0, row.end - row.start, row.kind)])
    ensures ToEnd(Cut(data, row), Row(0, row.end - row.start, row.kind)) <==> ToEnd(data, row)
  {
    var s, n := Cut(data, row), row.end - row.start;
    assert GetBE32(s, 0) == GetBE32(data, row.start);
    assert KindAt(s, 0) == KindAt(data, row.start);
    if n >= 16 {
      assert GetBE64(s, 8) == GetBE64(data, row.start + 8);
    }
    assert BoxSize(s, 0) == Ok(n);
    assert Boxes(s, n) == Ok([]);
    var only := Row(0, n, row.kind);
    assert [only] + [] == [only];
  }

  ghost predicate AllBoxes(data: Bytes, rows: seq<Row>) {
    forall i :: 0 <= i < |rows| ==> IsBox(data, rows[i])
  }

  function Join(data: Bytes, rows: seq<Row>): Bytes
    requires forall i :: 0 <= i < |rows| ==> rows[i].start <= rows[i].end <= |data|
  {
    if rows == [] then [] else Cut(data, rows[0]) + Join(data, rows[1..])
  }

  /** The rows moved together, from `at` on. */
  function Rebase(rows: seq<Row>, at: nat): seq<Row>
    requires forall i :: 0 <= i < |rows| ==> rows[i].start <= rows[i].end
  {
    if rows == [] then []
    else
      var end := at + (rows[0].end - rows[0].start);
      [Row(at, end, rows[0].kind)] + Rebase(rows[1..], end)
  }

  lemma {:induction false} ShiftRebase(rows: seq<Row>, at: nat, d: nat)
    requires forall i :: 0 <= i < |rows| ==> rows[i].start <= rows[i].end
    ensures Shift(Rebase(rows, at), d) == Rebase(rows, at + d)
  {
    if rows != [] {
      hide Shift;
      var n := rows[0].end - rows[0].start;
      ShiftRebase(rows[1..], at + n, d);
      var moved := Rebase(rows, at);
      ShiftFirst(moved[0], Rebase(rows[1..], at + n), d);
    } else {
      assert Shift([], d) == [];
    }
  }

  lemma ShiftFirst(row: Row, rows: seq<Row>, d: nat)
    ensures Shift([row] + rows, d) == [Row(row.start + d, row.end + d, row.kind)] + Shift(rows, d)
  {
    assert ([row] + rows)[1..] == rows;
  }

  /** Boxes cut out of a file and joined parse to exactly these boxes, moved together. */
  lemma {:induction false} JoinParses(data: Bytes, rows: seq<Row>)
    requires AllBoxes(data, rows)
    requires forall i :: 0 <= i < |rows| - 1 ==> !ToEnd(data, rows[i])
    ensures Boxes(Join(data, rows), 0) == Ok(Rebase(rows, 0))
  {
    hide BoxSize;
    hide KindAt;
    hide ToEnd;
    hide GetBE32;
    if rows != [] {
      var x, y := Cut(data, rows[0]), Join(data, rows[1..]);
      var n := rows[0].end - rows[0].start;
      CutParses(data, rows[0]);
      if |rows| == 1 {
        assert x + y == x;
        assert Rebase(rows, 0) == [Row(0, n, rows[0].kind)];
      } else {
        JoinParses(data, rows[1..]);
        ParseComposes(x, y, 0);
        ShiftRebase(rows[1..], 0, n);
      }
    }
  }

  // ---- Splitting a fragmented file

  datatype Split = Split(init: Bytes, fragment: Bytes, kinds: seq<Kind>)

  function InitKinds(): set<Kind> { {FTYP, MOOV, FREE, SKIP} }

  function SegmentKinds(): set<Kind> { {STYP} }

  function FragmentKinds(): set<Kind> { {MOOF} }

  function InKinds(kinds: set<Kind>): Row -> bool { (row: Row) => row.kind in kinds }

  function OfKinds(rows: seq<Row>, kinds: set<Kind>): seq<Row> { Filter(rows, InKinds(kinds)) }

  predicate HasKind(rows: seq<Row>, kind: Kind) {
    exists i :: 0 <= i < |rows| && rows[i].kind == kind
  }

  function IndexOfRow(rows: seq<Row>, row: Row): (i: nat)
    requires row in rows
    ensures i < |rows| && rows[i] == row
  {
    if rows[0] == row then 0 else 1 + IndexOfRow(rows[1..], row)
  }

  function KindsOf(rows: seq<Row>): (kinds: seq<Kind>)
    ensures |kinds| == |rows| && forall i :: 0 <= i < |rows| ==> kinds[i] == rows[i].kind
  {
    if rows == [] then [] else [rows[0].kind] + KindsOf(rows[1..])
  }

  datatype Selection = Selection(init: seq<Row>, media: seq<Row>)

  /** The boxes that make up the initialization part and the fragment. */
  function SelectBoxes(rows: seq<Row>): Result<Selection, BoxError> {
    var moofs := OfKinds(rows, FragmentKinds());
    if |moofs| != 1 then Err(SingleMoofRequired)
    else
      OfKindsMember(rows, FragmentKinds(), 0);
      var at := IndexOfRow(rows, moofs[0]);
      if at + 1 >= |rows| || rows[at + 1].kind != MDAT then Err(MoofMdatRequired)
      else
        var init := OfKinds(rows[..at], InitKinds());
        if !HasKind(init, FTYP) || !HasKind(init, MOOV) then Err(InitRequired)
        else Ok(Selection(init, OfKinds(rows[..at], SegmentKinds()) + [rows[at], rows[at + 1]]))
  }

  lemma OfKindsMember(rows: seq<Row>, kinds: set<Kind>, i: nat)
    requires i < |OfKinds(rows, kinds)|
    ensures OfKinds(rows, kinds)[i] in rows && OfKinds(rows, kinds)[i].kind in kinds
  {
    FilterMember(rows, InKinds(kinds));
    assert OfKinds(rows, kinds)[i] in OfKinds(rows, kinds);
  }

  lemma SelectedAreBoxes(data: Bytes, rows: seq<Row>, kinds: set<Kind>, at: nat, i: nat)
    requires Boxes(data, 0) == Ok(rows) && at < |rows| && i < |OfKinds(rows[..at], kinds)|
    ensures var r := OfKinds(rows[..at], kinds)[i]; IsBox(data, r) && !ToEnd(data, r) && r.kind in kinds
  {
    hide IsBox;
    hide ToEnd;
    OfKindsMember(rows[..at], kinds, i);
    var r := OfKinds(rows[..at], kinds)[i];
    var k :| 0 <= k < at && rows[..at][k] == r;
    RowsAreBoxes(data, 0, k);
  }

  /** What is selected can be cut out and joined. */
  lemma SelectionJoins(data: Bytes, rows: seq<Row>)
    requires Boxes(data, 0) == Ok(rows) && SelectBoxes(rows).Ok?
    ensures var s := SelectBoxes(rows).value;
            && AllBoxes(data, s.init) && NoneToEnd(data, s.init)
            && AllBoxes(data, s.media) && forall i :: 0 <= i < |s.media| - 1 ==> !ToEnd(data, s.media[i])
  {
    hide IsBox;
    hide InitKinds;
    hide SegmentKinds;
    hide FragmentKinds;
    hide OfKinds;
    hide ToEnd;
    OfKindsMember(rows, FragmentKinds(), 0);
    var at := IndexOfRow(rows, OfKinds(rows, FragmentKinds())[0]);
    var s := SelectBoxes(rows).value;
    RowsAreBoxes(data, 0, at);
    RowsAreBoxes(data, 0, at + 1);
    forall i | 0 <= i < |s.init|
      ensures IsBox(data, s.init[i]) && !ToEnd(data, s.init[i])
    {
      SelectedAreBoxes(data, rows, InitKinds(), at, i);
    }
    var prefix := OfKinds(rows[..at], SegmentKinds());
    forall i | 0 <= i < |prefix|
      ensures IsBox(data, prefix[i]) && !ToEnd(data, prefix[i])
    {
      SelectedAreBoxes(data, rows, SegmentKinds(), at, i);
    }
  }

  /** The outcome of splitting: the first error, or the joined boxes of both parts. */
  function SplitOf(data: Bytes): Result<Split, BoxError> {
    match Boxes(data, 0)
    case Err(e) => Err(e)
    case Ok(rows) =>
      match SelectBoxes(rows)
      case Err(e) => Err(e)
      case Ok(s) =>
        SelectionJoins(data, rows);
        Ok(Split(Join(data, s.init), Join(data, s.media), KindsOf(rows)))
  }

  method SplitFragmented(data: Bytes) returns (r: Result<Split, BoxError>)
    ensures r == SplitOf(data)
  {
    hide BoxSize;
    hide KindAt;
    hide InitKinds;
    hide SegmentKinds;
    hide FragmentKinds;
    hide OfKinds;
    hide ToEnd;
    var boxes := ParseBoxes(data);
    if boxes.Err? {
      return Err(boxes.error);
    }
    var rows := boxes.value;
    var moofs := OfKinds(rows, FragmentKinds());
    if |moofs| != 1 {
      return Err(SingleMoofRequired);
    }
    OfKindsMember(rows, FragmentKinds(), 0);
    var at := IndexOfRow(rows, moofs[0]);
    if at + 1 >= |rows| || rows[at + 1].kind != MDAT {
      return Err(MoofMdatRequired);
    }
    var init := OfKinds(rows[..at], InitKinds());
    if !HasKind(init, FTYP) || !HasKind(init, MOOV) {
      return Err(InitRequired);
    }
    var media := OfKinds(rows[..at], SegmentKinds()) + [rows[at], rows[at + 1]];
    SelectionJoins(data, rows);
    r := Ok(Split(Join(data, init), Join(data, media), KindsOf(rows)));
  }

  /**
    * Both parts of a split re-parse to exactly the selected boxes moved together, the media data included when its
    * size field is 0.
    */
  lemma SplitPartsReparse(data: Bytes, rows: seq<Row>)
    requires Boxes(data, 0) == Ok(rows) && SelectBoxes(rows).Ok?
    ensures var s := SelectBoxes(rows).value;
            && AllBoxes(data, s.init) && AllBoxes(data, s.media)
            && Boxes(Join(data, s.init), 0) == Ok(Rebase(s.init, 0))
            && Boxes(Join(data, s.media), 0) == Ok(Rebase(s.media, 0))
  {
    hide IsBox;
    hide ToEnd;
    hide SelectBoxes;
    SelectionJoins(data, rows);
    var s := SelectBoxes(rows).value;
    BoxesInData(data, s.init);
    BoxesInData(data, s.media);
    JoinParses(data, s.init);
    JoinParses(data, s.media);
  }

  lemma BoxesInData(data: Bytes, rows: seq<Row>)
    requires AllBoxes(data, rows)
    ensures forall i :: 0 <= i < |rows| ==> rows[i].start <= rows[i].end <= |data|
  {}

  lemma {:induction false} RebaseKinds(rows: seq<Row>, at: nat)
    requires forall i :: 0 <= i < |rows| ==> rows[i].start <= rows[i].end
    ensures |Rebase(rows, at)| == |rows|
    ensures forall i :: 0 <= i < |rows| ==> Rebase(rows, at)[i].kind == rows[i].kind
  {
    if rows != [] {
      RebaseKinds(rows[1..], at + (rows[0].end - rows[0].start));
    }
  }

  /** The fragment is segment types, then one movie fragment and its media data; no fragment is in the first part. */
  lemma SelectionShape(data: Bytes, rows: seq<Row>)
    requires Boxes(data, 0) == Ok(rows) && SelectBoxes(rows).Ok?
    ensures var s := SelectBoxes(rows).value;
            && HasKind(s.init, FTYP) && HasKind(s.init, MOOV) && !HasKind(s.init, MOOF) && !HasKind(s.init, MDAT)
            && |s.media| >= 2 && s.media[|s.media| - 2].kind == MOOF && s.media[|s.media| - 1].kind == MDAT
            && forall i :: 0 <= i < |s.media| - 2 ==> s.media[i].kind == STYP
  {
    hide IsBox;
    hide ToEnd;
    OfKindsMember(rows, FragmentKinds(), 0);
    var at := IndexOfRow(rows, OfKinds(rows, FragmentKinds())[0]);
    var s := SelectBoxes(rows).value;
    forall i | 0 <= i < |s.init|
      ensures s.init[i].kind in InitKinds()
    {
      OfKindsMember(rows[..at], InitKinds(), i);
    }
    forall i | 0 <= i < |OfKinds(rows[..at], SegmentKinds())|
      ensures OfKinds(rows[..at], SegmentKinds())[i].kind == STYP
    {
      OfKindsMember(rows[..at], SegmentKinds(), i);
    }
    assert MOOF[3] != FTYP[3] && MOOF[3] != MOOV[3] && MOOF[3] != FREE[3] && MOOF[3] != SKIP[3];
    assert MDAT[3] != FTYP[3] && MDAT[3] != MOOV[3] && MDAT[3] != FREE[3] && MDAT[3] != SKIP[3];
  }
}
