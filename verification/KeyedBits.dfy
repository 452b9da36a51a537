/** The bits and numbers taken from a keyed digest. */
module KeyedBits {
  import opened Bytes

  /** The first `n` bits of a digest, highest bit of each byte first; past its end they are zero. */
  function DigestBits(digest: Bytes, n: nat): (bits: seq<bool>)
    ensures |bits| == n
  {
    seq(n, i requires 0 <= i < n => i / 8 < |digest| && (digest[i / 8] as int / Pow2(7 - i % 8)) % 2 == 1)
  }

  /** The first byte of a digest, and the number its first four bytes spell; digests have more than that. */
  function FirstByte(digest: Bytes): nat { if digest == [] then 0 else digest[0] as int }

  function FirstWord(digest: Bytes): nat { if |digest| < 4 then 0 else GetBE32(digest, 0) }

  lemma FirstWordSpells(digest: Bytes)
    requires |digest| >= 4
    ensures FirstWord(digest) == HighestFirst(digest[0..4])
  {
    FieldsSpell(digest, 0);
  }

  method ReadBits(digest: Bytes, nBits: nat) returns (bits: seq<bool>)
    ensures bits == DigestBits(digest, nBits)
  {
    bits := [];
    for i := 0 to nBits
      invariant bits == DigestBits(digest, i)
    {
      var one := false;
      if i / 8 < |digest| {
        one := (digest[i / 8] as int / Pow2(7 - i % 8)) % 2 == 1;
      }
      bits := bits + [one];
    }
  }
}
