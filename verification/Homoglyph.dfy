/** Latin letters and their Cyrillic look-alikes as carriers of one bit each. */
module Homoglyph {
  import opened Prelude

  function ToCyrillic(c: char): char {
    match c
    case 'a' => '\U{0430}' case 'e' => '\U{0435}' case 'o' => '\U{043E}' case 'p' => '\U{0440}' case 'c' => '\U{0441}'
    case 'y' => '\U{0443}' case 'x' => '\U{0445}'
    case 'A' => '\U{0410}' case 'B' => '\U{0412}' case 'C' => '\U{0421}' case 'E' => '\U{0415}' case 'H' => '\U{041D}'
    case 'K' => '\U{041A}' case 'M' => '\U{041C}' case 'O' => '\U{041E}' case 'P' => '\U{0420}' case 'T' => '\U{0422}'
    case 'X' => '\U{0425}' case 'Y' => '\U{0423}'
    case _ => c
  }

  function ToLatin(c: char): char {
    match c
    case '\U{0430}' => 'a' case '\U{0435}' => 'e' case '\U{043E}' => 'o' case '\U{0440}' => 'p' case '\U{0441}' => 'c'
    case '\U{0443}' => 'y' case '\U{0445}' => 'x'
    case '\U{0410}' => 'A' case '\U{0412}' => 'B' case '\U{0421}' => 'C' case '\U{0415}' => 'E' case '\U{041D}' => 'H'
    case '\U{041A}' => 'K' case '\U{041C}' => 'M' case '\U{041E}' => 'O' case '\U{0420}' => 'P' case '\U{0422}' => 'T'
    case '\U{0425}' => 'X' case '\U{0423}' => 'Y'
    case _ => c
  }

  predicate HasTwin(c: char) { ToCyrillic(c) != c }

  predicate IsTwin(c: char) { ToLatin(c) != c }

  predicate IsHomoglyphCarrier(c: char) { HasTwin(c) || IsTwin(c) }

  function ReadHomoglyphBit(c: char): Option<bool> {
    if HasTwin(c) then Some(false) else if IsTwin(c) then Some(true) else None
  }

  function SetHomoglyphBit(c: char, bit: bool): char {
    if bit then ToCyrillic(c) else ToLatin(c)
  }

  /** The two maps undo each other, and no letter is on both sides. */
  lemma TwinsPair(c: char)
    ensures HasTwin(c) ==> IsTwin(ToCyrillic(c)) && ToLatin(ToCyrillic(c)) == c && ToLatin(c) == c
    ensures IsTwin(c) ==> HasTwin(ToLatin(c)) && ToCyrillic(ToLatin(c)) == c && ToCyrillic(c) == c
  {}

  /** A carrier keeps the last bit set and what it looks like; other characters are left alone. */
  lemma CarrierHoldsBit(c: char, bit: bool)
    ensures IsHomoglyphCarrier(c) <==> IsHomoglyphCarrier(SetHomoglyphBit(c, bit))
    ensures IsHomoglyphCarrier(c) ==> ReadHomoglyphBit(SetHomoglyphBit(c, bit)) == Some(bit)
    ensures !IsHomoglyphCarrier(c) ==> SetHomoglyphBit(c, bit) == c && ReadHomoglyphBit(c) == None
    ensures ToLatin(SetHomoglyphBit(c, bit)) == ToLatin(c)
    ensures !IsTwin(ToLatin(c))
  {
    hide ToCyrillic, ToLatin;
    TwinsPair(c);
    TwinsPair(ToLatin(c));
    TwinsPair(ToCyrillic(c));
  }

  function StripTwins(text: string): (out: string)
    ensures |out| == |text|
  {
    seq(|text|, i requires 0 <= i < |text| => ToLatin(text[i]))
  }

  method StripHomoglyphs(text: string) returns (out: string)
    ensures out == StripTwins(text)
  {
    out := "";
    for i := 0 to |text|
      invariant out == StripTwins(text[..i])
    {
      out := out + [if IsTwin(text[i]) then ToLatin(text[i]) else text[i]];
    }
    assert text[..|text|] == text;
  }

  predicate NoTwins(text: string) { forall i :: 0 <= i < |text| ==> !IsTwin(text[i]) }

  lemma StripIsStable(text: string)
    ensures NoTwins(StripTwins(text))
    ensures NoTwins(text) ==> StripTwins(text) == text
  {
    hide ToLatin, ToCyrillic;
    forall i | 0 <= i < |text|
      ensures !IsTwin(StripTwins(text)[i])
    {
      CarrierHoldsBit(text[i], false);
    }
  }

  lemma StripTwinsConcat(x: string, y: string)
    ensures StripTwins(x + y) == StripTwins(x) + StripTwins(y)
  {
    hide ToLatin;
  }
}
