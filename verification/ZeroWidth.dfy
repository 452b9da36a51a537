/** Zero-width characters as carriers of bits. */
module ZeroWidth {
  import opened Prelude
  import opened Search

  const ZW_ZERO := '\U{200B}'
  const ZW_ONE := '\U{200C}'
  const ZW_MARK := '\U{2060}'

  predicate IsZeroWidth(c: char) {
    c == ZW_ZERO || c == ZW_ONE || c == ZW_MARK || c == '\U{200D}' || c == '\U{FEFF}'
  }

  function BitChar(bit: bool): char { if bit then ZW_ONE else ZW_ZERO }

  function BitsText(bits: seq<bool>): (s: string)
    ensures |s| == |bits|
  {
    seq(|bits|, i requires 0 <= i < |bits| => BitChar(bits[i]))
  }

  method BitsToZeroWidth(bits: seq<bool>) returns (out: string)
    ensures out == BitsText(bits)
  {
    out := "";
    for i := 0 to |bits|
      invariant out == BitsText(bits[..i])
    {
      out := out + [if bits[i] then ZW_ONE else ZW_ZERO];
    }
    assert bits[..|bits|] == bits;
  }

  /** The bits the zero-width characters of a text spell. */
  function BitsOf(text: string): seq<bool> {
    if text == "" then []
    else
      var c := text[|text| - 1];
      BitsOf(text[..|text| - 1]) + (if c == ZW_ZERO then [false] else if c == ZW_ONE then [true] else [])
  }

  method ExtractZeroWidthBits(text: string) returns (bits: seq<bool>)
    ensures bits == BitsOf(text)
  {
    bits := [];
    for i := 0 to |text|
      invariant bits == BitsOf(text[..i])
    {
      assert text[..i + 1][..i] == text[..i];
      if text[i] == ZW_ZERO {
        bits := bits + [false];
      } else if text[i] == ZW_ONE {
        bits := bits + [true];
      }
    }
    assert text[..|text|] == text;
  }

  /** Writing bits and reading them back. */
  lemma {:induction false} BitsRoundTrip(bits: seq<bool>)
    ensures BitsOf(BitsText(bits)) == bits
  {
    if bits != [] {
      var n := |bits| - 1;
      BitsRoundTrip(bits[..n]);
      assert BitsText(bits)[..n] == BitsText(bits[..n]);
      assert bits == bits[..n] + [bits[n]];
    }
  }

  function Visible(text: string): string {
    if text == "" then ""
    else
      var c := text[|text| - 1];
      Visible(text[..|text| - 1]) + (if IsZeroWidth(c) then "" else [c])
  }

  method StripZeroWidth(text: string) returns (out: string)
    ensures out == Visible(text)
  {
    out := "";
    for i := 0 to |text|
      invariant out == Visible(text[..i])
    {
      assert text[..i + 1][..i] == text[..i];
      if !IsZeroWidth(text[i]) {
        out := out + [text[i]];
      }
    }
    assert text[..|text|] == text;
  }

  predicate AllVisible(text: string) { forall i :: 0 <= i < |text| ==> !IsZeroWidth(text[i]) }

  lemma {:induction false} VisibleConcat(x: string, y: string)
    ensures Visible(x + y) == Visible(x) + Visible(y)
  {
    if y == "" {
      assert x + y == x;
    } else {
      var n := |y| - 1;
      assert (x + y)[..|x + y| - 1] == x + y[..n];
      VisibleConcat(x, y[..n]);
    }
  }

  lemma {:induction false} VisibleIsStable(text: string)
    ensures AllVisible(Visible(text))
    ensures AllVisible(text) ==> Visible(text) == text
  {
    if text != "" {
      var n := |text| - 1;
      VisibleIsStable(text[..n]);
      assert text == text[..n] + [text[n]];
    }
  }

  lemma {:induction false} VisibleDropsAll(text: string)
    requires forall i :: 0 <= i < |text| ==> IsZeroWidth(text[i])
    ensures Visible(text) == ""
  {
    if text != "" {
      VisibleDropsAll(text[..|text| - 1]);
    }
  }

  lemma {:induction false} VisibleKeepsAll(text: string, p: char -> bool)
    requires forall i :: 0 <= i < |text| ==> p(text[i])
    ensures forall i :: 0 <= i < |Visible(text)| ==> p(Visible(text)[i])
  {
    if text != "" {
      VisibleKeepsAll(text[..|text| - 1], p);
    }
  }

  // ---- Frames of bits between two marks

  function Framed(bits: seq<bool>): string { [ZW_MARK] + BitsText(bits) + [ZW_MARK] }

  /** What lies between the first two marks. */
  function FramePayload(text: string): Option<string> {
    match IndexOf(text, [ZW_MARK], 0)
    case None => None
    case Some(first) =>
      match IndexOf(text, [ZW_MARK], first + 1)
      case None => None
      case Some(second) =>
        IndexOfFirst(text, [ZW_MARK], first + 1);
        Some(text[first + 1..second])
  }

  /** Found is what lies between the first two marks, even if it is nothing. */
  lemma FrameIs(x: string, payload: string, y: string)
    requires ZW_MARK !in x && ZW_MARK !in payload
    ensures FramePayload(x + [ZW_MARK] + payload + ([ZW_MARK] + y)) == Some(payload)
  {
    hide IndexOf;
    var s, second := x + [ZW_MARK] + payload + ([ZW_MARK] + y), |x| + 1 + |payload|;
    forall k | 0 <= k < second && k != |x|
      ensures !At(s, [ZW_MARK], k)
    {
      assert k < |x| ==> s[k] == x[k];
      assert k > |x| ==> s[k] == payload[k - |x| - 1];
    }
    assert s[|x|..|x| + 1] == [ZW_MARK] && s[second..second + 1] == [ZW_MARK];
    IndexOfIs(s, [ZW_MARK], 0, |x|);
    IndexOfIs(s, [ZW_MARK], |x| + 1, second);
    assert s[|x| + 1..second] == payload;
  }

  /** Nothing is found only in a text with less than two marks. */
  lemma NoFrame(text: string)
    ensures FramePayload(text).None? <==> forall i, j :: 0 <= i < j < |text| && text[i] == ZW_MARK ==> text[j] != ZW_MARK
  {
    IndexOfFirst(text, [ZW_MARK], 0);
    var r := IndexOf(text, [ZW_MARK], 0);
    if r.Some? {
      IndexOfFirst(text, [ZW_MARK], r.value + 1);
    }
    hide IndexOf;
    forall k | 0 <= k < |text|
      ensures At(text, [ZW_MARK], k) <==> text[k] == ZW_MARK
    {
      assert text[k..k + 1] == [text[k]];
    }
  }

  /** A frame in front of a text is found whole, whatever follows it. */
  lemma FrameIsFound(bits: seq<bool>, rest: string)
    ensures FramePayload(Framed(bits) + rest) == Some(BitsText(bits))
  {
    FrameIs("", BitsText(bits), rest);
    assert Framed(bits) + rest == "" + [ZW_MARK] + BitsText(bits) + ([ZW_MARK] + rest);
  }

  /** The characters taken for zero-width ones, by code point. */
  lemma ZeroWidthAre(c: char)
    ensures IsZeroWidth(c) <==> c as int in [0x200B, 0x200C, 0x200D, 0x2060, 0xFEFF]
  {}
}
