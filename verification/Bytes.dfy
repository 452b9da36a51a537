/** Byte strings and the fixed-width fields of the binary containers. */
module Bytes {
  newtype byte = x: int | 0 <= x < 256
  type Bytes = seq<byte>

  function LE16(n: nat): (r: Bytes)
    requires n < 0x1_0000
    ensures |r| == 2
  {
    [(n % 256) as byte, (n / 256) as byte]
  }

  function LE32(n: nat): (r: Bytes)
    requires n < 0x1_0000_0000
    ensures |r| == 4
  {
    [(n % 256) as byte, (n / 256 % 256) as byte, (n / 65536 % 256) as byte, (n / 16777216) as byte]
  }

  function GetLE16(b: Bytes, off: nat): nat
    requires off + 2 <= |b|
  {
    b[off] as int + 256 * (b[off + 1] as int)
  }

  function GetLE32(b: Bytes, off: nat): nat
    requires off + 4 <= |b|
  {
    b[off] as int + 256 * (b[off + 1] as int) + 65536 * (b[off + 2] as int) + 16777216 * (b[off + 3] as int)
  }

  function GetBE32(b: Bytes, off: nat): nat
    requires off + 4 <= |b|
  {
    16777216 * (b[off] as int) + 65536 * (b[off + 1] as int) + 256 * (b[off + 2] as int) + b[off + 3] as int
  }

  /** The number that digits spell, lowest first. */
  function LowestFirst(b: Bytes): nat {
    if b == [] then 0 else b[0] as int + 256 * LowestFirst(b[1..])
  }

  /** The number that digits spell, highest first. */
  function HighestFirst(b: Bytes): nat {
    if b == [] then 0 else 256 * HighestFirst(b[..|b| - 1]) + b[|b| - 1] as int
  }

  /** The fields read are the numbers their bytes spell. */
  lemma FieldsSpell(b: Bytes, off: nat)
    ensures off + 2 <= |b| ==> GetLE16(b, off) == LowestFirst(b[off..off + 2])
    ensures off + 4 <= |b| ==> GetLE32(b, off) == LowestFirst(b[off..off + 4])
    ensures off + 4 <= |b| ==> GetBE32(b, off) == HighestFirst(b[off..off + 4])
  {
    if off + 2 <= |b| {
      SpellTwo(b[off..off + 2]);
    }
    if off + 4 <= |b| {
      SpellFour(b[off..off + 4]);
    }
  }

  lemma SpellTwo(b: Bytes)
    requires |b| == 2
    ensures LowestFirst(b) == b[0] as int + 256 * (b[1] as int)
    ensures HighestFirst(b) == 256 * (b[0] as int) + b[1] as int
  {
    assert b[1..][1..] == [] && b[..1][..0] == [];
    assert LowestFirst(b[1..]) == b[1] as int && HighestFirst(b[..1]) == b[0] as int;
  }

  lemma SpellFour(b: Bytes)
    requires |b| == 4
    ensures LowestFirst(b) == b[0] as int + 256 * (b[1] as int) + 65536 * (b[2] as int) + 16777216 * (b[3] as int)
    ensures HighestFirst(b) == 16777216 * (b[0] as int) + 65536 * (b[1] as int) + 256 * (b[2] as int) + b[3] as int
  {
    SpellTwo(b[2..]);
    SpellTwo(b[..2]);
    assert b[1..][1..] == b[2..] && b[..3][..2] == b[..2];
  }

  /** The fields written spell their numbers. */
  lemma WrittenSpell(n: nat)
    ensures n < 0x1_0000 ==> LowestFirst(LE16(n)) == n
    ensures n < 0x1_0000_0000 ==> LowestFirst(LE32(n)) == n
  {
    if n < 0x1_0000 {
      SpellTwo(LE16(n));
    }
    if n < 0x1_0000_0000 {
      SpellFour(LE32(n));
      Digits32(n);
    }
  }

  function Pow2(k: nat): (r: nat)
    ensures r > 0
  {
    if k == 0 then 1 else 2 * Pow2(k - 1)
  }

  /** `part` is what `b` holds from `off` on. */
  ghost predicate Holds(b: Bytes, off: nat, part: Bytes) {
    off + |part| <= |b| && b[off..off + |part|] == part
  }

  lemma HoldsLE16(b: Bytes, off: nat, n: nat)
    requires n < 0x1_0000
    requires Holds(b, off, LE16(n))
    ensures GetLE16(b, off) == n
  {
    assert b[off] == b[off..off + 2][0] && b[off + 1] == b[off..off + 2][1];
  }

  lemma Digits32(n: nat)
    ensures n == n % 256 + 256 * (n / 256 % 256) + 65536 * (n / 65536 % 256) + 16777216 * (n / 16777216)
  {
    var q := n / 256;
    var r := q / 256;
    assert r == n / 65536 && r / 256 == n / 16777216;
  }

  lemma HoldsLE32(b: Bytes, off: nat, n: nat)
    requires n < 0x1_0000_0000
    requires Holds(b, off, LE32(n))
    ensures GetLE32(b, off) == n
  {
    Digits32(n);
    var s := b[off..off + 4];
    assert b[off] == s[0] && b[off + 1] == s[1] && b[off + 2] == s[2] && b[off + 3] == s[3];
  }

  lemma HoldsParts(b: Bytes, off: nat, x: Bytes, y: Bytes)
    ensures Holds(b, off, x + y) <==> Holds(b, off, x) && Holds(b, off + |x|, y)
  {
    if Holds(b, off, x + y) {
      assert b[off..off + |x|] == (x + y)[..|x|];
      assert b[off + |x|..off + |x| + |y|] == (x + y)[|x|..];
    }
    if Holds(b, off, x) && Holds(b, off + |x|, y) {
      assert b[off..off + |x + y|] == b[off..off + |x|] + b[off + |x|..off + |x| + |y|];
    }
  }

  lemma HoldsWithin(b: Bytes, off: nat, part: Bytes, at: nat, inner: Bytes)
    requires Holds(b, off, part) && Holds(part, at, inner)
    ensures Holds(b, off + at, inner)
  {
    forall i | 0 <= i < |inner|
      ensures b[off + at + i] == inner[i]
    {
      assert b[off..off + |part|][at + i] == part[at + i];
      assert part[at..at + |inner|][i] == inner[i];
    }
  }

  lemma HoldsBoth(x: Bytes, y: Bytes)
    ensures Holds(x + y, 0, x) && Holds(x + y, |x|, y)
  {}

  /** Byte strings end to end. */
  function Concat(parts: seq<Bytes>): Bytes {
    if parts == [] then [] else Concat(parts[..|parts| - 1]) + parts[|parts| - 1]
  }

  lemma ConcatNext(parts: seq<Bytes>, part: Bytes)
    ensures Concat(parts + [part]) == Concat(parts) + part
  {
    assert (parts + [part])[..|parts|] == parts;
  }

  /** Every part starts where the ones before it end. */
  lemma {:induction false} ConcatHolds(parts: seq<Bytes>, k: nat)
    requires k < |parts|
    ensures Holds(Concat(parts), |Concat(parts[..k])|, parts[k])
    decreases |parts|
  {
    var n := |parts| - 1;
    HoldsBoth(Concat(parts[..n]), parts[n]);
    if k < n {
      ConcatHolds(parts[..n], k);
      assert parts[..n][..k] == parts[..k];
      HoldsWithin(Concat(parts), 0, Concat(parts[..n]), |Concat(parts[..k])|, parts[k]);
    }
  }

  lemma HoldsThree(x: Bytes, y: Bytes, z: Bytes)
    ensures Holds(x + y + z, 0, x) && Holds(x + y + z, |x|, y) && Holds(x + y + z, |x| + |y|, z)
  {
    HoldsBoth(x + y, z);
    HoldsParts(x + y + z, 0, x, y);
  }

  lemma HoldsRecord(x: Bytes, records: seq<Bytes>, z: Bytes, k: nat)
    requires k < |records|
    ensures Holds(x + Concat(records) + z, |x| + |Concat(records[..k])|, records[k])
  {
    HoldsThree(x, Concat(records), z);
    ConcatHolds(records, k);
    HoldsWithin(x + Concat(records) + z, |x|, Concat(records), |Concat(records[..k])|, records[k]);
  }
}
