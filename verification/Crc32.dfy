/**
  * CRC-32 as the DOCX seal writes it into ZIP headers (section 8 of RFC 1952). The specification is the
  * reflected division register, which takes in one message bit per step; the code uses a table of 256
  * byte steps. A word is the list of its bits, lowest first.
  */
module Crc32 {
  import opened Bytes

  type Bits = seq<bool>
  type Word = w: Bits | |w| == 32 witness Zeros(32)

  // ---- Numbers as bits

  function ToBits(n: nat, k: nat): (bits: Bits)
    ensures |bits| == k
    decreases k
  {
    if k == 0 then [] else [n % 2 == 1] + ToBits(n / 2, k - 1)
  }

  function FromBits(bits: Bits): nat {
    if bits == [] then 0 else (if bits[0] then 1 else 0) + 2 * FromBits(bits[1..])
  }

  function Zeros(k: nat): (bits: Bits)
    ensures |bits| == k && forall i :: 0 <= i < k ==> !bits[i]
  {
    if k == 0 then [] else [false] + Zeros(k - 1)
  }

  lemma {:induction false} FromBitsBound(bits: Bits)
    ensures FromBits(bits) < Pow2(|bits|)
  {
    if bits != [] {
      FromBitsBound(bits[1..]);
    }
  }

  lemma Pow2Byte(k: nat)
    ensures Pow2(k + 8) == 256 * Pow2(k)
  {
    assert Pow2(k + 2) == 4 * Pow2(k);
    assert Pow2(k + 4) == 4 * Pow2(k + 2);
    assert Pow2(k + 6) == 4 * Pow2(k + 4);
  }

  lemma WordBound(w: Word)
    ensures FromBits(w) < 0x1_0000_0000
  {
    FromBitsBound(w);
    Pow2Byte(0);
    Pow2Byte(8);
    Pow2Byte(16);
    Pow2Byte(24);
  }

  lemma {:induction false} ZeroBits(k: nat)
    ensures ToBits(0, k) == Zeros(k)
  {
    if k > 0 {
      ZeroBits(k - 1);
      assert Zeros(k) == [false] + Zeros(k - 1);
    }
  }

  lemma {:induction false} BitsRoundTrip(bits: Bits, k: nat)
    requires |bits| <= k
    ensures ToBits(FromBits(bits), k) == bits + Zeros(k - |bits|)
  {
    if bits == [] {
      ZeroBits(k);
      assert bits + Zeros(k) == Zeros(k);
    } else {
      BitsRoundTrip(bits[1..], k - 1);
      assert bits + Zeros(k - |bits|) == [bits[0]] + (bits[1..] + Zeros(k - |bits|));
    }
  }

  lemma {:induction false} NumberRoundTrip(n: nat, k: nat)
    requires n < Pow2(k)
    ensures FromBits(ToBits(n, k)) == n
    decreases k
  {
    if k > 0 {
      NumberRoundTrip(n / 2, k - 1);
    }
  }

  // ---- The reference

  function Polynomial(): Word { ToBits(0xedb88320, 32) }

  function AllOnes(): Word { ToBits(0xffffffff, 32) }

  function Xor(a: Word, b: Word): Word {
    seq(32, i requires 0 <= i < 32 => a[i] != b[i])
  }

  function ShiftRight(w: Word, k: nat): Word
    requires k <= 32
  {
    w[k..] + Zeros(k)
  }

  /** One division step. */
  function Shift(reg: Word): Word {
    if reg[0] then Xor(Polynomial(), ShiftRight(reg, 1)) else ShiftRight(reg, 1)
  }

  function Iterate<T>(f: T -> T, x: T, n: nat): T
    decreases n
  {
    if n == 0 then x else Iterate(f, f(x), n - 1)
  }

  function Shifts(reg: Word, n: nat): Word {
    Iterate(Shift, reg, n)
  }

  /** Per step the register takes in one message bit and divides. */
  function Divide(reg: Word, bits: Bits): Word
    decreases |bits|
  {
    if bits == [] then reg else Divide(Shift(reg[0 := reg[0] != bits[0]]), bits[1..])
  }

  /** A message as bits, each byte lowest bit first. */
  function MessageBits(data: Bytes): Bits {
    if data == [] then [] else ToBits(data[0] as int, 8) + MessageBits(data[1..])
  }

  function Crc(data: Bytes): Word {
    Xor(Divide(AllOnes(), MessageBits(data)), AllOnes())
  }

  // ---- A byte step

  lemma ShiftLinear(a: Word, b: Word)
    ensures Shift(Xor(a, b)) == Xor(Shift(a), Shift(b))
  {}

  lemma {:induction false} IterateHomomorphism<T(!new)>(f: T -> T, op: (T, T) -> T, a: T, b: T, n: nat)
    requires forall x, y :: f(op(x, y)) == op(f(x), f(y))
    ensures Iterate(f, op(a, b), n) == op(Iterate(f, a, n), Iterate(f, b, n))
    decreases n
  {
    if n > 0 {
      IterateHomomorphism(f, op, f(a), f(b), n - 1);
    }
  }

  lemma ShiftsLinear(a: Word, b: Word, n: nat)
    ensures Shifts(Xor(a, b), n) == Xor(Shifts(a, n), Shifts(b, n))
  {
    forall x: Word, y: Word
      ensures Shift(Xor(x, y)) == Xor(Shift(x), Shift(y))
    {
      ShiftLinear(x, y);
    }
    IterateHomomorphism(Shift, Xor, a, b, n);
  }

  function Pad(bits: Bits): Word
    requires |bits| <= 32
  {
    bits + Zeros(32 - |bits|)
  }

  lemma FeedFirst(reg: Word, bits: Bits)
    requires 0 < |bits| <= 32
    ensures Xor(Shift(reg[0 := reg[0] != bits[0]]), Pad(bits[1..])) == Shift(Xor(reg, Pad(bits)))
  {}

  /** Taking in bits one per step is taking them all in first and then dividing. */
  lemma {:induction false} FeedAll(reg: Word, bits: Bits)
    requires |bits| <= 32
    ensures Divide(reg, bits) == Shifts(Xor(reg, Pad(bits)), |bits|)
    decreases |bits|
  {
    if bits == [] {
      assert Xor(reg, Pad(bits)) == reg;
    } else {
      FeedFirst(reg, bits);
      FeedAll(Shift(reg[0 := reg[0] != bits[0]]), bits[1..]);
    }
  }

  lemma {:induction false} ShiftClearBits(reg: Word, n: nat)
    requires n <= 32 && forall i :: 0 <= i < n ==> !reg[i]
    ensures Shifts(reg, n) == ShiftRight(reg, n)
    decreases n
  {
    if n == 0 {
      assert ShiftRight(reg, 0) == reg;
    } else {
      assert Shift(reg) == ShiftRight(reg, 1);
      ShiftClearBits(ShiftRight(reg, 1), n - 1);
      assert ShiftRight(ShiftRight(reg, 1), n - 1) == ShiftRight(reg, n);
    }
  }

  lemma SplitLowByte(x: Word)
    ensures x == Xor(Zeros(8) + x[8..], Pad(x[..8]))
  {}

  /** Eight steps of the division are one table look-up. */
  lemma ByteStep(reg: Word, bits: Bits)
    requires |bits| == 8
    ensures Divide(reg, bits) == Xor(ShiftRight(reg, 8), Shifts(Pad(Xor(reg, Pad(bits))[..8]), 8))
  {
    hide Divide, Shifts, Shift;
    var x := Xor(reg, Pad(bits));
    var low, high := Pad(x[..8]), Zeros(8) + x[8..];
    FeedAll(reg, bits);
    SplitLowByte(x);
    ShiftsLinear(high, low, 8);
    ShiftClearBits(high, 8);
    assert x[8..] == reg[8..];
  }

  lemma {:induction false} DivideConcat(reg: Word, a: Bits, b: Bits)
    ensures Divide(reg, a + b) == Divide(Divide(reg, a), b)
    decreases |a|
  {
    if a == [] {
      assert a + b == b;
    } else {
      assert (a + b)[1..] == a[1..] + b;
      DivideConcat(Shift(reg[0 := reg[0] != a[0]]), a[1..], b);
    }
  }

  // ---- What the checksum tells apart

  lemma {:induction false} DropBits(n: nat, j: nat, k: nat, q: nat)
    requires q == Halved(n, j)
    ensures ToBits(n, j + k)[j..] == ToBits(q, k)
    decreases j
  {
    if j > 0 {
      DropBits(n / 2, j - 1, k, q);
    }
  }

  function Halved(n: nat, j: nat): nat
    decreases j
  {
    if j == 0 then n else Halved(n / 2, j - 1)
  }

  lemma HalvedByte(n: nat)
    ensures Halved(n, 8) == n / 256
  {
    var q := n / 2 / 2 / 2 / 2;
    assert Halved(n, 8) == Halved(q, 4) == q / 2 / 2 / 2 / 2;
  }

  lemma TopBit()
    ensures Polynomial()[31]
  {
    hide ToBits, Halved;
    HalvedThrice(0xedb88320);
    HalvedSeven();
    LastBit(0xedb88320);
  }

  lemma LastBit(n: nat)
    requires Halved(n, 31) == 1
    ensures ToBits(n, 32)[31]
  {
    DropBits(n, 31, 1, 1);
    assert ToBits(1, 1) == [true];
  }

  lemma HalvedThrice(n: nat)
    ensures Halved(n, 31) == Halved(n / 256 / 256 / 256, 7)
  {
    hide Halved;
    HalvedAdd(n, 8, 23);
    HalvedByte(n);
    HalvedAdd(n / 256, 8, 15);
    HalvedByte(n / 256);
    HalvedAdd(n / 256 / 256, 8, 7);
    HalvedByte(n / 256 / 256);
  }

  lemma HalvedSeven()
    ensures Halved(0xed, 7) == 1
  {}

  lemma {:induction false} HalvedAdd(n: nat, i: nat, j: nat)
    ensures Halved(n, i + j) == Halved(Halved(n, i), j)
    decreases i
  {
    if i > 0 {
      HalvedAdd(n / 2, i - 1, j);
    }
  }

  /** A division step loses nothing: the top bit of the result is the bit that dropped out. */
  lemma ShiftInjective(a: Word, b: Word)
    requires Shift(a) == Shift(b)
    ensures a == b
  {
    TopBit();
    assert Shift(a)[31] == a[0] && Shift(b)[31] == b[0];
    forall i | 0 < i < 32
      ensures a[i] == b[i]
    {
      assert Shift(a)[i - 1] == Shift(b)[i - 1];
    }
  }

  lemma {:induction false} IterateInjective<T(!new)>(f: T -> T, a: T, b: T, n: nat)
    requires forall x, y :: f(x) == f(y) ==> x == y
    requires Iterate(f, a, n) == Iterate(f, b, n)
    ensures a == b
    decreases n
  {
    if n > 0 {
      IterateInjective(f, f(a), f(b), n - 1);
    }
  }

  lemma ShiftsInjective(a: Word, b: Word, n: nat)
    requires Shifts(a, n) == Shifts(b, n)
    ensures a == b
  {
    forall x: Word, y: Word | Shift(x) == Shift(y)
      ensures x == y
    {
      ShiftInjective(x, y);
    }
    IterateInjective(Shift, a, b, n);
  }

  lemma {:induction false} DivideInjective(a: Word, b: Word, bits: Bits)
    requires Divide(a, bits) == Divide(b, bits)
    ensures a == b
    decreases |bits|
  {
    if bits != [] {
      var a', b' := a[0 := a[0] != bits[0]], b[0 := b[0] != bits[0]];
      DivideInjective(Shift(a'), Shift(b'), bits[1..]);
      ShiftInjective(a', b');
      assert a == a'[0 := a[0]] && b == b'[0 := b[0]];
    }
  }

  lemma BurstInjective(reg: Word, x: Bits, y: Bits)
    requires |x| == |y| <= 32
    requires Divide(reg, x) == Divide(reg, y)
    ensures x == y
  {
    FeedAll(reg, x);
    FeedAll(reg, y);
    var a, b := Xor(reg, Pad(x)), Xor(reg, Pad(y));
    ShiftsInjective(a, b, |x|);
    forall i | 0 <= i < |x|
      ensures x[i] == y[i]
    {
      assert a[i] == (reg[i] != x[i]) && b[i] == (reg[i] != y[i]);
    }
  }

  lemma {:induction false} MessageBitsConcat(x: Bytes, y: Bytes)
    ensures MessageBits(x + y) == MessageBits(x) + MessageBits(y)
  {
    if x == [] {
      assert x + y == y;
    } else {
      assert (x + y)[1..] == x[1..] + y;
      MessageBitsConcat(x[1..], y);
    }
  }

  lemma {:induction false} MessageBitsInjective(x: Bytes, y: Bytes)
    requires |x| == |y| && MessageBits(x) == MessageBits(y)
    ensures x == y && |MessageBits(x)| == 8 * |x|
  {
    if x != [] {
      var p, q := ToBits(x[0] as int, 8), ToBits(y[0] as int, 8);
      assert p == MessageBits(x)[..8] && q == MessageBits(y)[..8];
      assert MessageBits(x[1..]) == MessageBits(x)[8..] && MessageBits(y[1..]) == MessageBits(y)[8..];
      MessageBitsInjective(x[1..], y[1..]);
      Pow2Byte(0);
      NumberRoundTrip(x[0] as int, 8);
      NumberRoundTrip(y[0] as int, 8);
    }
  }

  lemma {:induction false} MessageBitsLength(x: Bytes)
    ensures |MessageBits(x)| == 8 * |x|
  {
    if x != [] {
      MessageBitsLength(x[1..]);
    }
  }

  /** Messages that differ only inside a window of at most four bytes never share a checksum. */
  lemma BurstChangesCrc(before: Bytes, x: Bytes, y: Bytes, after: Bytes)
    requires |x| == |y| <= 4 && x != y
    ensures Crc(before + x + after) != Crc(before + y + after)
  {
    if Crc(before + x + after) == Crc(before + y + after) {
      var reg := Divide(AllOnes(), MessageBits(before));
      CrcOfWindow(before, x, after);
      CrcOfWindow(before, y, after);
      var p, q := Divide(reg, MessageBits(x)), Divide(reg, MessageBits(y));
      var p', q' := Divide(p, MessageBits(after)), Divide(q, MessageBits(after));
      XorCancel(p', q', AllOnes());
      DivideInjective(p, q, MessageBits(after));
      MessageBitsLength(x);
      MessageBitsLength(y);
      BurstInjective(reg, MessageBits(x), MessageBits(y));
      MessageBitsInjective(x, y);
    }
  }

  lemma XorCancel(a: Word, b: Word, mask: Word)
    requires Xor(a, mask) == Xor(b, mask)
    ensures a == b
  {
    forall i | 0 <= i < 32
      ensures a[i] == b[i]
    {
      assert Xor(a, mask)[i] == Xor(b, mask)[i];
    }
  }

  lemma CrcOfWindow(before: Bytes, x: Bytes, after: Bytes)
    ensures Crc(before + x + after) ==
            Xor(Divide(Divide(Divide(AllOnes(), MessageBits(before)), MessageBits(x)), MessageBits(after)), AllOnes())
  {
    MessageBitsConcat(before + x, after);
    MessageBitsConcat(before, x);
    DivideConcat(AllOnes(), MessageBits(before + x), MessageBits(after));
    DivideConcat(AllOnes(), MessageBits(before), MessageBits(x));
  }

  // ---- The code

  /** Every index in the table holds that number after eight division steps. */
  ghost predicate IsByteTable(table: seq<Word>) {
    |table| == 256 && forall i :: 0 <= i < 256 ==> table[i] == Shifts(ToBits(i, 32), 8)
  }

  method BuildTable() returns (table: seq<Word>)
    ensures IsByteTable(table)
  {
    hide Shifts, ToBits;
    table := [];
    for index := 0 to 256
      invariant |table| == index
      invariant forall i :: 0 <= i < index ==> table[i] == Shifts(ToBits(i, 32), 8)
    {
      var value := DivideSteps(ToBits(index, 32), 8);
      table := table + [value];
    }
  }

  /** The inner loop of the table. */
  method DivideSteps(start: Word, steps: nat) returns (value: Word)
    ensures value == Shifts(start, steps)
  {
    value := start;
    for bit := 0 to steps
      invariant Shifts(value, steps - bit) == Shifts(start, steps)
    {
      value := Shift(value);
    }
  }

  method ComputeCrc(data: Bytes, table: seq<Word>) returns (r: Word)
    requires IsByteTable(table)
    ensures r == Crc(data)
  {
    var crc := AllOnes();
    for i := 0 to |data|
      invariant Divide(crc, MessageBits(data[i..])) == Divide(AllOnes(), MessageBits(data))
    {
      var bits := ToBits(data[i] as int, 8);
      var low := Xor(crc, Pad(bits))[..8];
      assert data[i..][1..] == data[i + 1..];
      DivideConcat(crc, bits, MessageBits(data[i + 1..]));
      ByteStep(crc, bits);
      BitsRoundTrip(low, 32);
      FromBitsBound(low);
      assert Pow2(8) == 256;
      crc := Xor(ShiftRight(crc, 8), table[FromBits(low)]);
    }
    r := Xor(crc, AllOnes());
  }

  // ---- The constants and the step, bit by bit

  lemma {:induction false} BitAt(n: nat, k: nat, j: nat)
    requires j < k
    ensures ToBits(n, k)[j] <==> Halved(n, j) % 2 == 1
    decreases j
  {
    if j > 0 {
      BitAt(n / 2, k - 1, j - 1);
    }
  }

  lemma {:induction false} OnesBits(k: nat)
    ensures ToBits(Pow2(k) - 1, k) == seq(k, _ => true)
  {
    if k > 0 {
      OnesBits(k - 1);
      assert (Pow2(k) - 1) / 2 == Pow2(k - 1) - 1;
      assert seq(k, _ => true) == [true] + seq(k - 1, _ => true);
    }
  }

  /** The register starts with ones, and all of its bits are inverted in the end. */
  lemma InversionMeans(data: Bytes)
    ensures AllOnes() == seq(32, _ => true)
    ensures forall i :: 0 <= i < 32 ==> (Crc(data)[i] <==> !Divide(AllOnes(), MessageBits(data))[i])
  {
    hide Divide, ToBits, MessageBits;
    OnesBits(32);
    PowersOfBytes();
  }

  lemma PowersOfBytes()
    ensures Pow2(0) == 1 && Pow2(8) == 0x100 && Pow2(16) == 0x1_0000 && Pow2(24) == 0x100_0000 && Pow2(32) == 0x1_0000_0000
  {
    Pow2Byte(0);
    Pow2Byte(8);
    Pow2Byte(16);
    Pow2Byte(24);
  }

  /** The step divides by the polynomial: the register moves down, and where a one falls out the polynomial is added. */
  lemma ShiftMeans(reg: Word, i: nat)
    requires i < 32
    ensures Shift(reg)[i] <==> (i < 31 && reg[i + 1]) != (reg[0] && Polynomial()[i])
  {
    hide ToBits;
  }

  lemma PolynomialByte(k: nat, j: nat)
    requires k < 4 && j < 8
    ensures var n := if k == 0 then 0xedb88320 else if k == 1 then 0xedb883 else if k == 2 then 0xedb8 else 0xed;
            Polynomial()[8 * k + j] <==> EightDigits(n)[j]
  {
    hide ToBits, Halved;
    var n := 0xedb88320;
    BitAt(n, 32, 8 * k + j);
    HalvedBytes(n);
    HalvedAdd(n, 8 * k, j);
    ByteDigits(Halved(n, 8 * k), j);
    assert n / 256 == 0xedb883 && n / 256 / 256 == 0xedb8 && n / 256 / 256 / 256 == 0xed;
  }

  lemma HalvedBytes(n: nat)
    ensures Halved(n, 0) == n && Halved(n, 8) == n / 256 && Halved(n, 16) == n / 256 / 256 && Halved(n, 24) == n / 256 / 256 / 256
  {
    HalvedNone(n);
    hide Halved;
    HalvedByte(n);
    HalvedAdd(n, 8, 8);
    HalvedByte(n / 256);
    HalvedAdd(n, 16, 8);
    HalvedByte(n / 256 / 256);
  }

  lemma HalvedNone(n: nat)
    ensures Halved(n, 0) == n
  {}

  /**
    * The polynomial of the standards, in the reflected order: bit `i` is the coefficient of x to the power of 31 - i,
    * and x to the power of 32 is left out.
    */
  lemma PolynomialMeans(i: nat)
    requires i < 32
    ensures Polynomial()[i] <==> 31 - i in {26, 23, 22, 16, 12, 11, 10, 8, 7, 5, 4, 2, 1, 0}
  {
    hide ToBits, Polynomial, EightDigits;
    PolynomialByte(i / 8, i % 8);
    assert i == 8 * (i / 8) + i % 8;
    if i < 8 {
      LowestByte(i);
    } else if i < 16 {
      SecondByte(i);
    } else if i < 24 {
      ThirdByte(i);
    } else {
      HighestByte(i);
    }
  }

  /** The lowest eight binary digits of a number. */
  function EightDigits(n: nat): (bits: Bits)
    ensures |bits| == 8
  {
    [n % 2 == 1, n / 2 % 2 == 1, n / 4 % 2 == 1, n / 8 % 2 == 1, n / 16 % 2 == 1, n / 32 % 2 == 1, n / 64 % 2 == 1, n / 128 % 2 == 1]
  }

  lemma ByteDigits(n: nat, j: nat)
    requires j < 8
    ensures Halved(n, j) % 2 == 1 <==> EightDigits(n)[j]
  {
    hide Halved;
    var h := n / 16;
    SmallHalves(n);
    if j >= 4 {
      SmallHalves(h);
      HalvedAdd(n, 4, j - 4);
      assert h / 2 == n / 32 && h / 4 == n / 64 && h / 8 == n / 128;
    }
  }

  lemma SmallHalves(n: nat)
    ensures Halved(n, 0) == n && Halved(n, 1) == n / 2 && Halved(n, 2) == n / 4 && Halved(n, 3) == n / 8 && Halved(n, 4) == n / 16
  {
    assert n / 2 / 2 == n / 4 && n / 4 / 2 == n / 8 && n / 8 / 2 == n / 16;
  }

  lemma LowestByte(i: nat)
    requires i < 8
    ensures EightDigits(0xedb88320)[i] <==> 31 - i in {26}
  {}

  lemma SecondByte(i: nat)
    requires 8 <= i < 16
    ensures EightDigits(0xedb883)[i - 8] <==> 31 - i in {23, 22, 16}
  {}

  lemma ThirdByte(i: nat)
    requires 16 <= i < 24
    ensures EightDigits(0xedb8)[i - 16] <==> 31 - i in {12, 11, 10, 8}
  {}

  lemma HighestByte(i: nat)
    requires 24 <= i < 32
    ensures EightDigits(0xed)[i - 24] <==> 31 - i in {7, 5, 4, 2, 1, 0}
  {}
}
