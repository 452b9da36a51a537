/** Fixed-width little-endian header fields, written in place at their offsets. */
module Fields {
  import opened Bytes

  datatype Field = U16(at: nat, value: nat) | U32(at: nat, value: nat) {
    predicate Fits() {
      match this
      case U16(_, v) => v < 0x1_0000
      case U32(_, v) => v < 0x1_0000_0000
    }

    function Width(): (w: nat)
    {
      if U16? then 2 else 4
    }

    function Encode(): (b: Bytes)
      requires Fits()
      ensures |b| == Width()
    {
      match this
      case U16(_, v) => LE16(v)
      case U32(_, v) => LE32(v)
    }
  }

  /** The fields fit and follow each other without gap or overlap, from offset 0. */
  ghost predicate Tiles(fields: seq<Field>) {
    && (forall k :: 0 <= k < |fields| ==> fields[k].Fits())
    && (fields != [] ==> fields[0].at == 0)
    && (forall i, j :: 0 <= i < j < |fields| && j == i + 1 ==> fields[j].at == fields[i].at + fields[i].Width())
  }

  function End(fields: seq<Field>): nat {
    if fields == [] then 0 else fields[|fields| - 1].at + fields[|fields| - 1].Width()
  }

  function Layout(fields: seq<Field>): (b: Bytes)
    requires Tiles(fields)
    ensures |b| == End(fields)
  {
    if fields == [] then []
    else
      var init := fields[..|fields| - 1];
      TilesPrefix(fields, |fields| - 1);
      Layout(init) + fields[|fields| - 1].Encode()
  }

  lemma TilesPrefix(fields: seq<Field>, n: nat)
    requires n <= |fields| && Tiles(fields)
    ensures Tiles(fields[..n]) && (n < |fields| ==> End(fields[..n]) == fields[n].at)
  {}

  /** Every field can be read back at its own offset. */
  lemma {:induction false} FieldHeld(fields: seq<Field>, k: nat)
    requires Tiles(fields) && k < |fields|
    ensures Holds(Layout(fields), fields[k].at, fields[k].Encode())
    decreases |fields|
  {
    var n := |fields| - 1;
    var front, last := fields[..n], fields[n].Encode();
    LayoutNext(fields, n);
    assert fields[..|fields|] == fields;
    HoldsBoth(Layout(front), last);
    if k < n {
      FieldHeld(front, k);
      HoldsWithin(Layout(front) + last, 0, Layout(front), fields[k].at, fields[k].Encode());
    }
  }

  method PutLE16(buffer: array<byte>, n: nat, off: nat)
    requires n < 0x1_0000 && off + 2 <= buffer.Length
    modifies buffer
    ensures buffer[..] == old(buffer[..off]) + LE16(n) + old(buffer[off + 2..])
  {
    var bytes := LE16(n);
    buffer[off] := bytes[0];
    buffer[off + 1] := bytes[1];
  }

  method PutLE32(buffer: array<byte>, n: nat, off: nat)
    requires n < 0x1_0000_0000 && off + 4 <= buffer.Length
    modifies buffer
    ensures buffer[..] == old(buffer[..off]) + LE32(n) + old(buffer[off + 4..])
  {
    var bytes := LE32(n);
    buffer[off] := bytes[0];
    buffer[off + 1] := bytes[1];
    buffer[off + 2] := bytes[2];
    buffer[off + 3] := bytes[3];
  }

  method PutField(buffer: array<byte>, f: Field)
    requires f.Fits() && f.at + f.Width() <= buffer.Length
    modifies buffer
    ensures buffer[..] == old(buffer[..f.at]) + f.Encode() + old(buffer[f.at + f.Width()..])
  {
    match f {
      case U16(off, v) => PutLE16(buffer, v, off);
      case U32(off, v) => PutLE32(buffer, v, off);
    }
  }

  method PutFields(header: array<byte>, fields: seq<Field>)
    requires Tiles(fields) && End(fields) <= header.Length
    modifies header
    ensures header[..] == Layout(fields) + old(header[End(fields)..])
  {
    ghost var tail := header[..];
    TilesPrefix(fields, 0);
    assert Layout(fields[..0]) == [] && End(fields[..0]) == 0;
    hide Tiles, End, Layout;
    for k := 0 to |fields|
      invariant Tiles(fields[..k]) && End(fields[..k]) <= header.Length
      invariant header[..] == Layout(fields[..k]) + tail[End(fields[..k])..]
    {
      LayoutNext(fields, k);
      ghost var before, done, next := header[..], Layout(fields[..k]), fields[k].Encode();
      PutField(header, fields[k]);
      PatchNext(done, next, tail, before);
    }
    assert fields[..|fields|] == fields;
  }

  lemma LayoutNext(fields: seq<Field>, k: nat)
    requires Tiles(fields) && k < |fields|
    ensures Tiles(fields[..k]) && Tiles(fields[..k + 1]) && End(fields[..k]) == fields[k].at
    ensures End(fields[..k + 1]) == fields[k].at + fields[k].Width() <= End(fields)
    ensures Layout(fields[..k + 1]) == Layout(fields[..k]) + fields[k].Encode()
  {
    TilesPrefix(fields, k);
    TilesPrefix(fields, k + 1);
    EndMonotone(fields, k + 1);
    assert fields[..k + 1][..k] == fields[..k];
  }

  method CopyInto(buffer: array<byte>, bytes: Bytes, off: nat)
    requires off + |bytes| == buffer.Length
    modifies buffer
    ensures buffer[..] == old(buffer[..off]) + bytes
  {
    for i := 0 to |bytes|
      invariant buffer[..off + i] == old(buffer[..off]) + bytes[..i]
    {
      buffer[off + i] := bytes[i];
    }
    assert buffer[..off + |bytes|] == buffer[..];
  }

  /** Writes every field at its offset and the name behind them. */
  method FillHeader(fields: seq<Field>, name: Bytes) returns (header: array<byte>)
    requires Tiles(fields)
    ensures fresh(header) && header[..] == Layout(fields) + name
  {
    header := new byte[End(fields) + |name|](_ => 0);
    PutFields(header, fields);
    assert header[..End(fields)] == Layout(fields);
    CopyInto(header, name, End(fields));
  }

  lemma PatchNext(done: Bytes, next: Bytes, tail: Bytes, before: Bytes)
    requires |done| + |next| <= |tail| && before == done + tail[|done|..]
    ensures before[..|done|] + next + before[|done| + |next|..] == done + next + tail[|done| + |next|..]
  {
    assert before[..|done|] == done;
    assert before[|done| + |next|..] == tail[|done|..][|next|..] == tail[|done| + |next|..];
  }

  lemma {:induction false} EndMonotone(fields: seq<Field>, k: nat)
    requires Tiles(fields) && k <= |fields|
    ensures End(fields[..k]) <= End(fields)
    decreases |fields| - k
  {
    if k == |fields| {
      assert fields[..k] == fields;
    } else {
      assert fields[..k + 1][..k] == fields[..k];
      EndMonotone(fields, k + 1);
    }
  }
}
