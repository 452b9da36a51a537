/**
  * ISO base media boxes written digit by digit (section 4.2 of ISO/IEC 14496-12), and what the box walker and the
  * fragment splitter make of them.
  */
module BoxWriting {
  import opened Members
  import opened Prelude
  import opened Bytes
  import opened IsoBoxes

  /** The last `width` digits of a number to the base 256, highest first. */
  function Digits(n: nat, width: nat): (b: Bytes)
    ensures |b| == width
  {
    if width == 0 then [] else Digits(n / 256, width - 1) + [(n % 256) as byte]
  }

  function Power(width: nat): (p: nat)
    ensures p > 0
  {
    if width == 0 then 1 else 256 * Power(width - 1)
  }

  lemma {:induction false} DigitsSpell(n: nat, width: nat)
    requires n < Power(width)
    ensures HighestFirst(Digits(n, width)) == n
  {
    if width > 0 {
      DigitsSpell(n / 256, width - 1);
      var d := Digits(n, width);
      assert d[..|d| - 1] == Digits(n / 256, width - 1);
    }
  }

  lemma PowersAre()
    ensures Power(4) == 0x1_0000_0000 && Power(8) == 0x1_0000_0000_0000_0000
  {
    assert Power(2) == 65536;
    assert Power(6) == 65536 * Power(4);
  }

  /** A box of the three forms: with a size, with a large size, and open up to the end of the data. */
  datatype Box = Short(kind: Kind, payload: Bytes) | Long(kind: Kind, payload: Bytes) | Open(kind: Kind, payload: Bytes) {
    predicate Fits() {
      && |kind| == 4
      && (Short? ==> 8 + |payload| < 0x1_0000_0000)
      && (Long? ==> 16 + |payload| < 0x1_0000_0000_0000_0000)
    }

    function Written(): Bytes {
      match this
      case Short(_, _) => Digits(8 + |payload|, 4) + kind + payload
      case Long(_, _) => Digits(1, 4) + kind + Digits(16 + |payload|, 8) + payload
      case Open(_, _) => Digits(0, 4) + kind + payload
    }
  }

  function AllWritten(boxes: seq<Box>): Bytes {
    if boxes == [] then [] else boxes[0].Written() + AllWritten(boxes[1..])
  }

  /** Their rows, from `at` on. */
  function RowsOf(boxes: seq<Box>, at: nat): (rows: seq<Row>)
    ensures |rows| == |boxes|
  {
    if boxes == [] then []
    else
      var end := at + |boxes[0].Written()|;
      [Row(at, end, boxes[0].kind)] + RowsOf(boxes[1..], end)
  }

  /** The boxes fit their fields, and none is open but perhaps the last. */
  ghost predicate WellFormed(boxes: seq<Box>) {
    && (forall i :: 0 <= i < |boxes| ==> boxes[i].Fits())
    && (forall i :: 0 <= i < |boxes| - 1 ==> !boxes[i].Open?)
  }

  // ---- Fields in front of anything

  /** A 32-bit size in front of four letters and anything else. */
  lemma SizeField(size: nat, kind: Kind, rest: Bytes)
    requires size < 0x1_0000_0000 && |kind| == 4
    ensures var data := Digits(size, 4) + kind + rest;
            GetBE32(data, 0) == size && KindAt(data, 0) == kind
  {
    var data := Digits(size, 4) + kind + rest;
    assert data[0..4] == Digits(size, 4) && data[4..8] == kind;
    PowersAre();
    DigitsSpell(size, 4);
    hide GetBE32;
    FieldsSpell(data, 0);
  }

  lemma {:induction false} HighestConcat(x: Bytes, y: Bytes)
    ensures HighestFirst(x + y) == HighestFirst(x) * Power(|y|) + HighestFirst(y)
  {
    if y == [] {
      assert x + y == x;
    } else {
      var n := |y| - 1;
      HighestConcat(x, y[..n]);
      assert (x + y)[..|x + y| - 1] == x + y[..n];
      Carry(HighestFirst(x), Power(n), HighestFirst(y[..n]), y[n] as int);
    }
  }

  lemma Carry(h: nat, q: nat, l: nat, d: nat)
    ensures 256 * (h * q + l) + d == h * (256 * q) + (256 * l + d)
  {
    assert h * (256 * q) == 256 * (h * q);
  }

  lemma LargeField(data: Bytes, off: nat)
    requires off + 8 <= |data|
    ensures GetBE64(data, off) == HighestFirst(data[off..off + 8])
  {
    FieldsSpell(data, off);
    FieldsSpell(data, off + 4);
    PowersAre();
    var x, y := data[off..off + 4], data[off + 4..off + 8];
    HighestConcat(x, y);
    assert data[off..off + 8] == x + y;
  }

  lemma LargeSizeField(size: nat, kind: Kind, rest: Bytes)
    requires size < 0x1_0000_0000_0000_0000 && |kind| == 4
    ensures var data := Digits(1, 4) + kind + Digits(size, 8) + rest;
            GetBE32(data, 0) == 1 && KindAt(data, 0) == kind && GetBE64(data, 8) == size
  {
    var data := Digits(1, 4) + kind + Digits(size, 8) + rest;
    assert data == Digits(1, 4) + kind + (Digits(size, 8) + rest);
    SizeField(1, kind, Digits(size, 8) + rest);
    assert data[8..16] == Digits(size, 8);
    PowersAre();
    DigitsSpell(size, 8);
    LargeField(data, 8);
  }

  // ---- Well-formed lists

  lemma BoxIsSized(b: Box)
    requires b.Fits()
    ensures |b.Written()| >= 8 && BoxSize(b.Written(), 0) == Ok(|b.Written()|) && KindAt(b.Written(), 0) == b.kind
    ensures GetBE32(b.Written(), 0) == 0 <==> b.Open?
  {
    hide GetBE32, GetBE64, Digits;
    match b {
      case Short(kind, payload) => SizeField(8 + |payload|, kind, payload);
      case Long(kind, payload) => LargeSizeField(16 + |payload|, kind, payload);
      case Open(kind, payload) => SizeField(0, kind, payload);
    }
  }

  lemma BoxParses(b: Box)
    requires b.Fits()
    ensures Boxes(b.Written(), 0) == Ok([Row(0, |b.Written()|, b.kind)])
    ensures !b.Open? ==> NoneToEnd(b.Written(), [Row(0, |b.Written()|, b.kind)])
  {
    hide BoxSize, KindAt, GetBE32;
    BoxIsSized(b);
    var data := b.Written();
    assert Boxes(data, |data|) == Ok([]);
    assert [Row(0, |data|, b.kind)] + [] == [Row(0, |data|, b.kind)];
  }

  lemma {:induction false} RowsShift(boxes: seq<Box>, at: nat, d: nat)
    ensures Shift(RowsOf(boxes, at), d) == RowsOf(boxes, at + d)
  {
    hide Shift, Box.Written;
    if boxes != [] {
      var end := at + |boxes[0].Written()|;
      RowsShift(boxes[1..], end, d);
      ShiftFirst(Row(at, end, boxes[0].kind), RowsOf(boxes[1..], end), d);
    }
  }

  /** Boxes followed by anything: their rows, then those of what follows, or its error. */
  lemma {:induction false} PrefixParses(boxes: seq<Box>, tail: Bytes)
    requires WellFormed(boxes) && forall i :: 0 <= i < |boxes| ==> !boxes[i].Open?
    ensures Boxes(AllWritten(boxes) + tail, 0) ==
            Prepend(RowsOf(boxes, 0), ShiftResult(Boxes(tail, 0), |AllWritten(boxes)|))
  {
    hide BoxSize, KindAt, ToEnd, Shift;
    if boxes == [] {
      assert [] + tail == tail;
      ShiftByNothing(Boxes(tail, 0));
      PrependNothing(Boxes(tail, 0));
    } else {
      var x, y, n := boxes[0].Written(), AllWritten(boxes[1..]), |boxes[0].Written()|;
      PrefixParses(boxes[1..], tail);
      BoxParses(boxes[0]);
      ParseComposes(x, y + tail, 0);
      assert x + y + tail == x + (y + tail);
      ShiftPrepended(RowsOf(boxes[1..], 0), Boxes(tail, 0), |y|, n);
      RowsShift(boxes[1..], 0, n);
      PrependTwice([Row(0, n, boxes[0].kind)], RowsOf(boxes[1..], n), ShiftResult(Boxes(tail, 0), |y| + n));
    }
  }

  lemma ShiftNothing(rows: seq<Row>)
    ensures Shift(rows, 0) == rows
  {
    hide Shift;
  }

  lemma ShiftByNothing(r: Result<seq<Row>, BoxError>)
    ensures ShiftResult(r, 0) == r
  {
    if r.Ok? {
      ShiftNothing(r.value);
    }
  }

  lemma ShiftConcat(xs: seq<Row>, ys: seq<Row>, d: nat)
    ensures Shift(xs + ys, d) == Shift(xs, d) + Shift(ys, d)
  {
    hide Shift;
  }

  lemma ShiftTwice(rows: seq<Row>, d: nat, e: nat)
    ensures Shift(Shift(rows, d), e) == Shift(rows, d + e)
  {
    hide Shift;
  }

  lemma ShiftPrepended(rows: seq<Row>, r: Result<seq<Row>, BoxError>, d: nat, e: nat)
    ensures ShiftResult(Prepend(rows, ShiftResult(r, d)), e) == Prepend(Shift(rows, e), ShiftResult(r, d + e))
  {
    hide Shift;
    if r.Ok? {
      ShiftConcat(rows, Shift(r.value, d), e);
      ShiftTwice(r.value, d, e);
    }
  }

  lemma {:induction false} WrittenConcat(xs: seq<Box>, ys: seq<Box>)
    ensures AllWritten(xs + ys) == AllWritten(xs) + AllWritten(ys)
  {
    if xs == [] {
      assert xs + ys == ys;
    } else {
      assert (xs + ys)[1..] == xs[1..] + ys;
      WrittenConcat(xs[1..], ys);
    }
  }

  lemma RowsFirst(b: Box, rest: seq<Box>, at: nat)
    ensures RowsOf([b] + rest, at) == [Row(at, at + |b.Written()|, b.kind)] + RowsOf(rest, at + |b.Written()|)
    ensures AllWritten([b] + rest) == b.Written() + AllWritten(rest)
  {
    hide Box.Written;
    assert ([b] + rest)[1..] == rest;
  }

  lemma {:induction false} RowsConcat(xs: seq<Box>, ys: seq<Box>, at: nat)
    ensures RowsOf(xs + ys, at) == RowsOf(xs, at) + RowsOf(ys, at + |AllWritten(xs)|)
  {
    hide RowsOf, AllWritten, Box.Written;
    if xs == [] {
      assert xs + ys == ys;
      NoRows(at);
      assert [] + RowsOf(ys, at) == RowsOf(ys, at);
    } else {
      var b, rest := xs[0], xs[1..];
      assert xs == [b] + rest && xs + ys == [b] + (rest + ys);
      RowsFirst(b, rest + ys, at);
      RowsFirst(b, rest, at);
      RowsConcat(rest, ys, at + |b.Written()|);
      Regroup([Row(at, at + |b.Written()|, b.kind)], RowsOf(rest, at + |b.Written()|), RowsOf(ys, at + |AllWritten(xs)|));
    }
  }

  lemma NoRows(at: nat)
    ensures RowsOf([], at) == [] && AllWritten([]) == []
  {}

  /** Any list of boxes, an open one only at its end, parses to exactly these boxes. */
  lemma BoxesParse(boxes: seq<Box>)
    requires WellFormed(boxes)
    ensures Boxes(AllWritten(boxes), 0) == Ok(RowsOf(boxes, 0))
  {
    if boxes == [] {
      assert AllWritten(boxes) == [];
    } else {
      var n := |boxes| - 1;
      assert boxes == boxes[..n] + [boxes[n]];
      LastBoxParses(boxes[..n], boxes[n]);
    }
  }

  lemma LastBoxParses(front: seq<Box>, last: Box)
    requires WellFormed(front) && (forall i :: 0 <= i < |front| ==> !front[i].Open?) && last.Fits()
    ensures Boxes(AllWritten(front + [last]), 0) == Ok(RowsOf(front + [last], 0))
  {
    hide Boxes, Box.Written, Shift, AllWritten, RowsOf, WellFormed;
    PrefixParses(front, last.Written());
    BoxParses(last);
    WrittenConcat(front, [last]);
    OneWritten(last);
    RowsConcat(front, [last], 0);
    RowsShift([last], 0, |AllWritten(front)|);
  }

  lemma OneWritten(b: Box)
    ensures AllWritten([b]) == b.Written()
    ensures forall at: nat :: RowsOf([b], at) == [Row(at, at + |b.Written()|, b.kind)]
  {
    assert [b][1..] == [] && b.Written() + [] == b.Written();
  }

  // ---- Malformed data

  /** How a box header can be wrong: cut off, or with a size below its header or beyond the data. */
  ghost predicate Malformed(tail: Bytes, e: BoxError) {
    || (0 < |tail| < 8 && e == Truncated)
    || (e == Truncated && exists kind, rest :: IsCutLarge(tail, kind, rest))
    || (e == BoundsInvalid && exists size, kind, rest :: IsWrongSize(tail, size, kind, rest))
    || (e == BoundsInvalid && exists size, kind, rest :: IsWrongLargeSize(tail, size, kind, rest))
  }

  ghost predicate IsCutLarge(tail: Bytes, kind: Kind, rest: Bytes) {
    |kind| == 4 && |rest| < 8 && tail == Digits(1, 4) + kind + rest
  }

  ghost predicate IsWrongSize(tail: Bytes, size: nat, kind: Kind, rest: Bytes) {
    && |kind| == 4 && 1 < size < 0x1_0000_0000 && tail == Digits(size, 4) + kind + rest
    && (size < 8 || size > 8 + |rest|)
  }

  ghost predicate IsWrongLargeSize(tail: Bytes, size: nat, kind: Kind, rest: Bytes) {
    && |kind| == 4 && size < 0x1_0000_0000_0000_0000 && tail == Digits(1, 4) + kind + Digits(size, 8) + rest
    && (size < 16 || size > 16 + |rest|)
  }

  /** Such data behind any boxes are refused. */
  lemma MalformedIsRefused(boxes: seq<Box>, tail: Bytes, e: BoxError)
    requires WellFormed(boxes) && (forall i :: 0 <= i < |boxes| ==> !boxes[i].Open?) && Malformed(tail, e)
    ensures Boxes(AllWritten(boxes) + tail, 0) == Err(e) && SplitOf(AllWritten(boxes) + tail) == Err(e)
  {
    hide GetBE32, GetBE64, Digits;
    PrefixParses(boxes, tail);
    if kind, rest :| IsCutLarge(tail, kind, rest) {
      SizeField(1, kind, rest);
    }
    if size, kind, rest :| IsWrongSize(tail, size, kind, rest) {
      SizeField(size, kind, rest);
    }
    if size, kind, rest :| IsWrongLargeSize(tail, size, kind, rest) {
      LargeSizeField(size, kind, rest);
    }
    assert tail != [] && BoxSize(tail, 0) == Err(e);
  }

  // ---- Splitting

  function Letters(s: string): (k: Kind)
    ensures |k| == |s|
  {
    seq(|s|, i requires 0 <= i < |s| => (s[i] as int % 256) as byte)
  }

  predicate Is(b: Box, name: string) { b.kind == Letters(name) }

  function IsInit(): Box -> bool { (b: Box) => Is(b, "ftyp") || Is(b, "moov") || Is(b, "free") || Is(b, "skip") }

  function IsType(): Box -> bool { (b: Box) => Is(b, "styp") }

  function IsMoof(): Box -> bool { (b: Box) => Is(b, "moof") }

  lemma KindsAreNames()
    ensures Letters("ftyp") == FTYP && Letters("moov") == MOOV && Letters("free") == FREE && Letters("skip") == SKIP
    ensures Letters("styp") == STYP && Letters("moof") == MOOF && Letters("mdat") == MDAT
  {}

  lemma {:induction false} RowMeans(boxes: seq<Box>, at: nat, i: nat)
    requires i < |boxes|
    ensures RowsOf(boxes, at)[i] ==
            Row(at + |AllWritten(boxes[..i])|, at + |AllWritten(boxes[..i])| + |boxes[i].Written()|, boxes[i].kind)
  {
    hide RowsOf, AllWritten, Box.Written;
    assert boxes == boxes[..i] + ([boxes[i]] + boxes[i + 1..]);
    RowsConcat(boxes[..i], [boxes[i]] + boxes[i + 1..], at);
    RowsFirst(boxes[i], boxes[i + 1..], at + |AllWritten(boxes[..i])|);
  }

  lemma {:induction false} JoinConcat(data: Bytes, xs: seq<Row>, ys: seq<Row>)
    requires forall i :: 0 <= i < |xs| ==> xs[i].start <= xs[i].end <= |data|
    requires forall i :: 0 <= i < |ys| ==> ys[i].start <= ys[i].end <= |data|
    ensures Join(data, xs + ys) == Join(data, xs) + Join(data, ys)
  {
    hide Cut;
    if xs == [] {
      assert xs + ys == ys;
    } else {
      assert (xs + ys)[1..] == xs[1..] + ys;
      JoinConcat(data, xs[1..], ys);
    }
  }

  ghost predicate InData(data: Bytes, rows: seq<Row>) {
    forall i :: 0 <= i < |rows| ==> rows[i].start <= rows[i].end <= |data|
  }

  /** Choosing rows and joining what they cut out is choosing boxes and writing them. */
  lemma {:induction false} ChosenRows(data: Bytes, boxes: seq<Box>, at: nat, kinds: set<Kind>, p: Box -> bool)
    requires Holds(data, at, AllWritten(boxes)) && forall b: Box :: p(b) <==> b.kind in kinds
    ensures var rows := OfKinds(RowsOf(boxes, at), kinds);
            |rows| == |Filter(boxes, p)| && InData(data, rows) && Join(data, rows) == AllWritten(Filter(boxes, p))
    decreases |boxes|
  {
    hide Box.Written, RowsOf, AllWritten, Filter, Join;
    if boxes == [] {
      NoRows(at);
      NothingChosen(data, kinds, p);
    } else {
      var n := |boxes| - 1;
      var front, last := boxes[..n], boxes[n];
      assert boxes == front + [last];
      WrittenConcat(front, [last]);
      OneWritten(last);
      HoldsParts(data, at, AllWritten(front), last.Written());
      ChosenRows(data, front, at, kinds, p);
      RowsConcat(front, [last], at);
      var row := Row(at + |AllWritten(front)|, at + |AllWritten(front)| + |last.Written()|, last.kind);
      ChosenNext(data, RowsOf(front, at), row, front, last, kinds, p);
    }
  }

  lemma NothingChosen(data: Bytes, kinds: set<Kind>, p: Box -> bool)
    ensures OfKinds([], kinds) == [] && Filter([], p) == [] && Join(data, []) == [] && AllWritten([]) == []
  {}

  lemma ChosenNext(data: Bytes, rows: seq<Row>, row: Row, front: seq<Box>, last: Box, kinds: set<Kind>, p: Box -> bool)
    requires row.start <= row.end <= |data| && data[row.start..row.end] == last.Written()
    requires p(last) <==> row.kind in kinds
    requires |OfKinds(rows, kinds)| == |Filter(front, p)| && InData(data, OfKinds(rows, kinds))
    requires Join(data, OfKinds(rows, kinds)) == AllWritten(Filter(front, p))
    ensures var all := OfKinds(rows + [row], kinds);
            && |all| == |Filter(front + [last], p)| && InData(data, all)
            && Join(data, all) == AllWritten(Filter(front + [last], p))
  {
    hide Box.Written, AllWritten, Filter, Join;
    FilterConcat(rows, [row], InKinds(kinds));
    FilterOne(row, InKinds(kinds));
    FilterConcat(front, [last], p);
    FilterOne(last, p);
    if p(last) {
      JoinConcat(data, OfKinds(rows, kinds), [row]);
      OneJoin(data, row);
      WrittenConcat(Filter(front, p), [last]);
      OneWritten(last);
    } else {
      assert OfKinds(rows, kinds) + [] == OfKinds(rows, kinds) && Filter(front, p) + [] == Filter(front, p);
    }
  }

  lemma OneJoin(data: Bytes, row: Row)
    requires row.start <= row.end <= |data|
    ensures Join(data, [row]) == data[row.start..row.end]
  {
    assert [row][1..] == [];
  }

  lemma {:induction false} KindsOfRows(boxes: seq<Box>, at: nat)
    ensures KindsOf(RowsOf(boxes, at)) == Map(boxes, (b: Box) => b.kind)
  {
    hide RowsOf, KindsOf, Box.Written;
    forall i | 0 <= i < |boxes|
      ensures RowsOf(boxes, at)[i].kind == boxes[i].kind
    {
      RowMeans(boxes, at, i);
    }
  }

  /** A list without exactly one movie fragment is refused. */
  lemma NeedsOneMoof(boxes: seq<Box>)
    requires WellFormed(boxes) && |Filter(boxes, IsMoof())| != 1
    ensures SplitOf(AllWritten(boxes)) == Err(SingleMoofRequired)
  {
    hide RowsOf, Boxes, Filter, WellFormed, AllWritten;
    var data := AllWritten(boxes);
    BoxesParse(boxes);
    KindsAreNames();
    ChosenRows(data, boxes, 0, FragmentKinds(), IsMoof());
  }

  /** The row of the only movie fragment. */
  lemma OnlyMoof(pre: seq<Box>, moof: Box, post: seq<Box>)
    requires Is(moof, "moof") && forall b :: b in pre || b in post ==> !Is(b, "moof")
    ensures var rows := RowsOf(pre + [moof] + post, 0);
            && OfKinds(rows, FragmentKinds()) == [rows[|pre|]]
            && forall i :: 0 <= i < |rows| && rows[i] == rows[|pre|] ==> i == |pre|
  {
    hide RowsOf, Box.Written, Filter;
    var boxes := pre + [moof] + post;
    var rows := RowsOf(boxes, 0);
    KindsAreNames();
    forall i: nat | i < |boxes|
      ensures rows[i].kind == MOOF <==> i == |pre|
    {
      RowMeans(boxes, 0, i);
      if i < |pre| {
        assert boxes[i] in pre;
      } else if i > |pre| {
        assert boxes[i] == post[i - |pre| - 1] && boxes[i] in post;
      }
    }
    var p := InKinds(FragmentKinds());
    assert rows == rows[..|pre|] + [rows[|pre|]] + rows[|pre| + 1..];
    FilterConcat(rows[..|pre|] + [rows[|pre|]], rows[|pre| + 1..], p);
    FilterConcat(rows[..|pre|], [rows[|pre|]], p);
    FilterNone(rows[..|pre|], p);
    FilterOne(rows[|pre|], p);
    FilterNone(rows[|pre| + 1..], p);
  }

  /** The rows in front of the movie fragment are those of the boxes in front of it. */
  lemma RowsInFront(pre: seq<Box>, moof: Box, post: seq<Box>)
    ensures RowsOf(pre + [moof] + post, 0)[..|pre|] == RowsOf(pre, 0)
    ensures AllWritten(pre + [moof] + post) == AllWritten(pre) + AllWritten([moof] + post)
  {
    hide RowsOf, AllWritten;
    assert pre + [moof] + post == pre + ([moof] + post);
    RowsConcat(pre, [moof] + post, 0);
    WrittenConcat(pre, [moof] + post);
  }

  lemma InitNeeds(data: Bytes, pre: seq<Box>)
    requires Holds(data, 0, AllWritten(pre))
    ensures var init := OfKinds(RowsOf(pre, 0), InitKinds());
            && (HasKind(init, FTYP) <==> exists b :: b in pre && Is(b, "ftyp"))
            && (HasKind(init, MOOV) <==> exists b :: b in pre && Is(b, "moov"))
  {
    KindsAreNames();
    KindIsThere(pre, "ftyp");
    KindIsThere(pre, "moov");
  }

  lemma KindIsThere(pre: seq<Box>, name: string)
    requires Letters(name) in InitKinds()
    ensures HasKind(OfKinds(RowsOf(pre, 0), InitKinds()), Letters(name)) <==> exists b :: b in pre && Is(b, name)
  {
    hide RowsOf, Filter, Letters, InitKinds, Box.Written;
    var rows, init := RowsOf(pre, 0), OfKinds(RowsOf(pre, 0), InitKinds());
    FilterMember(rows, InKinds(InitKinds()));
    forall i: nat | i < |pre|
      ensures rows[i].kind == pre[i].kind
    {
      RowMeans(pre, 0, i);
    }
    if HasKind(init, Letters(name)) {
      var i :| 0 <= i < |init| && init[i].kind == Letters(name);
      assert init[i] in init;
      var k :| 0 <= k < |rows| && rows[k] == init[i];
      assert pre[k] in pre && Is(pre[k], name);
    }
    if b :| b in pre && Is(b, name) {
      var k :| 0 <= k < |pre| && pre[k] == b;
      assert rows[k] in rows && rows[k] in init;
      var i :| 0 <= i < |init| && init[i] == rows[k];
      assert init[i].kind == Letters(name);
    }
  }

  /**
    * A list with one movie fragment: it needs media data right behind that and a file type and a movie box before it;
    * then the first part is the init, free and skip boxes before it, the second the segment types, it and the media data.
    */
  lemma SplitsBoxes(pre: seq<Box>, moof: Box, post: seq<Box>)
    requires WellFormed(pre + [moof] + post) && Is(moof, "moof") && forall b :: b in pre || b in post ==> !Is(b, "moof")
    ensures SplitOf(AllWritten(pre + [moof] + post)) ==
            if post == [] || !Is(post[0], "mdat") then Err(MoofMdatRequired)
            else if !(exists b :: b in pre && Is(b, "ftyp")) || !(exists b :: b in pre && Is(b, "moov")) then Err(InitRequired)
            else Ok(Split(AllWritten(Filter(pre, IsInit())), AllWritten(Filter(pre, IsType()) + [moof, post[0]]),
                          Map(pre + [moof] + post, (b: Box) => b.kind)))
  {
    hide RowsOf, Boxes, Filter, WellFormed, AllWritten, InitKinds, FragmentKinds, SegmentKinds, Box.Written, IndexOfRow, Join, HasKind;
    var boxes := pre + [moof] + post;
    var data, rows := AllWritten(boxes), RowsOf(boxes, 0);
    BoxesParse(boxes);
    OnlyMoof(pre, moof, post);
    RowsInFront(pre, moof, post);
    KindsAreNames();
    KindsOfRows(boxes, 0);
    if post != [] {
      RowMeans(boxes, 0, |pre| + 1);
      assert boxes[|pre| + 1] == post[0];
      HoldsBoth(AllWritten(pre), AllWritten([moof] + post));
      InitNeeds(data, pre);
      PartsAre(data, pre, moof, post);
    }
  }

  lemma PartsAre(data: Bytes, pre: seq<Box>, moof: Box, post: seq<Box>)
    requires data == AllWritten(pre + [moof] + post) && post != []
    ensures var rows := RowsOf(pre + [moof] + post, 0);
            var init, media := OfKinds(RowsOf(pre, 0), InitKinds()), OfKinds(RowsOf(pre, 0), SegmentKinds()) + [rows[|pre|], rows[|pre| + 1]];
            && InData(data, init) && Join(data, init) == AllWritten(Filter(pre, IsInit()))
            && InData(data, media) && Join(data, media) == AllWritten(Filter(pre, IsType()) + [moof, post[0]])
  {
    hide RowsOf, Filter, AllWritten, Box.Written, Join;
    var boxes := pre + [moof] + post;
    var rows := RowsOf(boxes, 0);
    RowsInFront(pre, moof, post);
    KindsAreNames();
    HoldsBoth(AllWritten(pre), AllWritten([moof] + post));
    ChosenRows(data, pre, 0, InitKinds(), IsInit());
    ChosenRows(data, pre, 0, SegmentKinds(), IsType());
    TwoRows(data, pre, moof, post);
    var front, two := OfKinds(RowsOf(pre, 0), SegmentKinds()), [rows[|pre|], rows[|pre| + 1]];
    JoinConcat(data, front, two);
    WrittenConcat(Filter(pre, IsType()), [moof, post[0]]);
  }

  lemma TwoRows(data: Bytes, pre: seq<Box>, moof: Box, post: seq<Box>)
    requires data == AllWritten(pre + [moof] + post) && post != []
    ensures var rows := RowsOf(pre + [moof] + post, 0);
            InData(data, [rows[|pre|], rows[|pre| + 1]])
            && Join(data, [rows[|pre|], rows[|pre| + 1]]) == AllWritten([moof, post[0]])
  {
    hide RowsOf, AllWritten, Box.Written;
    var boxes := pre + [moof] + post;
    var x, y, a, b := AllWritten(pre), AllWritten(post[1..]), moof.Written(), post[0].Written();
    assert boxes == pre + ([moof] + ([post[0]] + post[1..]));
    WrittenConcat(pre, [moof] + ([post[0]] + post[1..]));
    RowsFirst(moof, [post[0]] + post[1..], |x|);
    RowsFirst(post[0], post[1..], |x| + |a|);
    RowsConcat(pre, [moof] + ([post[0]] + post[1..]), 0);
    assert data == x + (a + (b + y));
    assert data[|x|..|x| + |a|] == a && data[|x| + |a|..|x| + |a| + |b|] == b;
    RowsFirst(moof, [post[0]], 0);
    OneWritten(post[0]);
    assert [moof, post[0]] == [moof] + [post[0]];
    var r, s := Row(|x|, |x| + |a|, moof.kind), Row(|x| + |a|, |x| + |a| + |b|, post[0].kind);
    JoinConcat(data, [r], [s]);
    OneJoin(data, r);
    OneJoin(data, s);
    assert [r, s] == [r] + [s];
  }
}
