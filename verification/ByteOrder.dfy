/** The korr loads and stores: the shift-and-add forms, the pointer-cast forms, and the reference reading
    low byte first. Shifts and casts of the C types are written out as products and remainders. */
module ByteOrder {
  import opened Bytes

  const TWO8 := 0x100
  const TWO15 := 0x8000
  const TWO16 := 0x1_0000
  const TWO23 := 0x80_0000
  const TWO24 := 0x100_0000
  const TWO31 := 0x8000_0000
  const TWO32 := 0x1_0000_0000
  const TWO40 := 0x100_0000_0000
  const TWO63 := 0x8000_0000_0000_0000
  const TWO64 := 0x1_0000_0000_0000_0000

  /** Two's complement: the signed reading of v in a type of 2 * half values. */
  function AsSigned(v: int, half: int): int {
    if v < half then v else v - 2 * half
  }

  /** The unsigned reading of a signed value. */
  function AsUnsigned(v: int, half: int): int {
    if v < 0 then v + 2 * half else v
  }

  /** The signed reading lies in the signed range and is congruent to v; the unsigned reading undoes it. */
  lemma SignedIs(v: int, half: int)
    requires 0 <= v < 2 * half
    ensures 0 - half <= AsSigned(v, half) < half
    ensures AsSigned(v, half) == v || AsSigned(v, half) == v - 2 * half
    ensures AsUnsigned(AsSigned(v, half), half) == v
  {
  }

  function U32Shl8(b: Byte): int { b * TWO8 % TWO32 }
  function U32Shl16(b: Byte): int { b * TWO16 % TWO32 }
  function U32Shl24(b: Byte): int { b * TWO24 % TWO32 }
  function U64Shl32(v: int): int { v * TWO32 % TWO64 }
  function U64Shl40(b: Byte): int { b * TWO40 % TWO64 }

  // ----- shift-and-add loads, byte_order_generic.h and my_byteorder.h -----

  function Uint2korr(m: seq<Byte>): int
    requires |m| >= 2
  {
    (m[0] + m[1] * TWO8) % TWO16
  }

  function Uint3korr(m: seq<Byte>): int
    requires |m| >= 3
  {
    (m[0] + U32Shl8(m[1]) + U32Shl16(m[2])) % TWO32
  }

  function Uint4korr(m: seq<Byte>): int
    requires |m| >= 4
  {
    (m[0] + U32Shl8(m[1]) + U32Shl16(m[2]) + U32Shl24(m[3])) % TWO32
  }

  function Uint5korr(m: seq<Byte>): int
    requires |m| >= 5
  {
    (Uint4korr(m) + U64Shl32(m[4])) % TWO64
  }

  function Uint6korr(m: seq<Byte>): int
    requires |m| >= 6
  {
    (Uint4korr(m) + U64Shl32(m[4]) + U64Shl40(m[5])) % TWO64
  }

  function Uint8korr(m: seq<Byte>): int
    requires |m| >= 8
  {
    (Uint4korr(m) + U64Shl32(Uint4korr(m[4..]))) % TWO64
  }

  function Sint2korr(m: seq<Byte>): int
    requires |m| >= 2
  {
    AsSigned((m[0] + m[1] * TWO8) % TWO16, TWO15)
  }

  /** The top byte is shifted into the sign of a 32-bit value before the addition. */
  function Sint4korr(m: seq<Byte>): int
    requires |m| >= 4
  {
    m[0] + m[1] * TWO8 + m[2] * TWO16 + AsSigned(m[3] * TWO24 % TWO32, TWO31)
  }

  function Sint8korr(m: seq<Byte>): int
    requires |m| >= 8
  {
    AsSigned(Uint8korr(m), TWO63)
  }

  /** Bitwise or. */
  function BitOr(x: nat, y: nat): nat {
    if x == 0 then y else if y == 0 then x else
      (if x % 2 == 1 || y % 2 == 1 then 1 else 0) + 2 * BitOr(x / 2, y / 2)
  }

  /** Bit 7 of a byte. */
  predicate Bit128(b: Byte) {
    b / 128 % 2 == 1
  }

  function OrOfThree(b2: Byte, b1: Byte, b0: Byte): int {
    BitOr(BitOr(U32Shl16(b2), U32Shl8(b1)), b0)
  }

  function OrOfFour(b3: Byte, b2: Byte, b1: Byte, b0: Byte): int {
    BitOr(BitOr(BitOr(U32Shl24(b3), U32Shl16(b2)), U32Shl8(b1)), b0)
  }

  function Sint3korr(m: seq<Byte>): int
    requires |m| >= 3
  {
    AsSigned(if Bit128(m[2]) then OrOfFour(255, m[2], m[1], m[0]) else OrOfThree(m[2], m[1], m[0]), TWO31)
  }

  /** Or of a value and one below its lowest set bit is their sum. */
  lemma {:induction false} OrIsSum(x: nat, y: nat, k: nat)
    requires x % Pow2(k) == 0 && y < Pow2(k)
    ensures BitOr(x, y) == x + y
  {
    if k > 0 && x > 0 && y > 0 {
      HalfOfMultiple(x, k);
      OrIsSum(x / 2, y / 2, k - 1);
    }
  }

  function Pow2(k: nat): (p: nat)
    ensures p > 0
  {
    if k == 0 then 1 else 2 * Pow2(k - 1)
  }

  lemma HalfOfMultiple(x: nat, k: nat)
    requires k > 0 && x % Pow2(k) == 0
    ensures x % 2 == 0 && x / 2 % Pow2(k - 1) == 0
  {
    var q, p := x / Pow2(k), Pow2(k - 1);
    assert x == q * (2 * p);
    assert x == 2 * (q * p);
    assert x / 2 == q * p;
    MultipleMod(q, p);
  }

  lemma MultipleMod(q: nat, p: nat)
    requires p > 0
    ensures q * p % p == 0
  {
    if q > 0 {
      MultipleMod(q - 1, p);
      assert q * p == (q - 1) * p + p;
      AddModulus((q - 1) * p, p);
    }
  }

  lemma AddModulus(x: nat, p: nat)
    requires p > 0
    ensures (x + p) % p == x % p
  {
    var q := x / p;
    assert x + p == p * (q + 1) + x % p;
    Quotient(x + p, p, q + 1, x % p);
  }

  lemma Pow2Values()
    ensures Pow2(8) == TWO8 && Pow2(16) == TWO16 && Pow2(24) == TWO24
  {
    assert Pow2(4) == 16;
    assert Pow2(8) == 16 * Pow2(4);
    assert Pow2(12) == 16 * Pow2(8);
    assert Pow2(16) == 16 * Pow2(12);
    assert Pow2(20) == 16 * Pow2(16);
    assert Pow2(24) == 16 * Pow2(20);
  }

  // ----- every load against the reference -----

  lemma LeUnfold(m: seq<Byte>)
    requires m != []
    ensures LeValue(m) == m[0] + TWO8 * LeValue(m[1..])
  {
  }

  lemma LeOfTwo(m: seq<Byte>)
    requires |m| == 2
    ensures LeValue(m) == m[0] + m[1] * TWO8
  {
    LeUnfold(m[1..]);
    assert m[1..][1..] == [];
  }

  lemma LeOfThree(m: seq<Byte>)
    requires |m| == 3
    ensures LeValue(m) == m[0] + m[1] * TWO8 + m[2] * TWO16
  {
    LeOfTwo(m[1..]);
  }

  lemma LeOfFour(m: seq<Byte>)
    requires |m| == 4
    ensures LeValue(m) == m[0] + m[1] * TWO8 + m[2] * TWO16 + m[3] * TWO24
  {
    LeOfThree(m[1..]);
  }

  /** Splitting after four bytes splits the value at bit 32. */
  lemma LeSplitFour(m: seq<Byte>)
    requires |m| >= 4
    ensures LeValue(m) == LeValue(m[..4]) + TWO32 * LeValue(m[4..])
  {
    LeOfFour(m[..4]);
    LeUnfold(m);
    LeUnfold(m[1..]);
    LeUnfold(m[2..]);
    LeUnfold(m[3..]);
    assert m[1..][1..] == m[2..] && m[2..][1..] == m[3..] && m[3..][1..] == m[4..];
  }

  lemma Shifts(b: Byte)
    ensures U32Shl8(b) == b * TWO8 && U32Shl16(b) == b * TWO16 && U32Shl24(b) == b * TWO24
  {
  }

  lemma SumOfFour(b0: Byte, b1: Byte, b2: Byte, b3: Byte)
    ensures (b0 + U32Shl8(b1) + U32Shl16(b2) + U32Shl24(b3)) % TWO32
      == b0 + b1 * TWO8 + b2 * TWO16 + b3 * TWO24 < TWO32
  {
    Shifts(b1);
    Shifts(b2);
    Shifts(b3);
  }

  lemma Uint4IsLe(m: seq<Byte>)
    requires |m| >= 4
    ensures Uint4korr(m) == LeValue(m[..4]) < TWO32
  {
    LeOfFour(m[..4]);
    SumOfFour(m[0], m[1], m[2], m[3]);
  }

  /** The loads of all six widths, by number of bytes. */
  predicate Width(n: int) {
    n == 2 || n == 3 || n == 4 || n == 5 || n == 6 || n == 8
  }

  function Korr(m: seq<Byte>, n: int): int
    requires Width(n) && |m| >= n
  {
    match n
    case 2 => Uint2korr(m)
    case 3 => Uint3korr(m)
    case 4 => Uint4korr(m)
    case 5 => Uint5korr(m)
    case 6 => Uint6korr(m)
    case _ => Uint8korr(m)
  }

  lemma JoinHalves(low: int, high: int)
    requires 0 <= low < TWO32 && 0 <= high < TWO32
    ensures (low + U64Shl32(high)) % TWO64 == low + TWO32 * high
  {
  }

  lemma JoinSix(low: int, b4: Byte, b5: Byte)
    requires 0 <= low < TWO32
    ensures (low + U64Shl32(b4) + U64Shl40(b5)) % TWO64 == low + TWO32 * (b4 + b5 * TWO8)
  {
  }

  lemma Uint5IsLe(m: seq<Byte>)
    requires |m| == 5
    ensures Uint5korr(m) == LeValue(m)
  {
    LeSplitFour(m);
    Uint4IsLe(m);
    LeUnfold(m[4..]);
    assert m[4..][1..] == [];
    JoinHalves(Uint4korr(m), m[4]);
  }

  lemma Uint6IsLe(m: seq<Byte>)
    requires |m| == 6
    ensures Uint6korr(m) == LeValue(m)
  {
    LeSplitFour(m);
    Uint4IsLe(m);
    LeOfTwo(m[4..]);
    JoinSix(Uint4korr(m), m[4], m[5]);
  }

  lemma Uint8IsLe(m: seq<Byte>)
    requires |m| == 8
    ensures Uint8korr(m) == LeValue(m)
  {
    JoinHalves(Uint4korr(m), Uint4korr(m[4..]));
    LeSplitFour(m);
    Uint4IsLe(m);
    Uint4IsLe(m[4..]);
    assert m[4..][..4] == m[4..];
  }

  /** A load looks at its own bytes only. */
  lemma SameBytesSameLoad(m: seq<Byte>, n: int)
    requires Width(n) && |m| >= n
    ensures Korr(m, n) == Korr(m[..n], n)
  {
    if n == 8 {
      var w := m[..8];
      assert w[4..][0] == m[4] && w[4..][1] == m[5] && w[4..][2] == m[6] && w[4..][3] == m[7];
    }
  }

  lemma Uint2IsLe(m: seq<Byte>)
    requires |m| == 2
    ensures Uint2korr(m) == LeValue(m)
  {
    LeOfTwo(m);
  }

  lemma Uint3IsLe(m: seq<Byte>)
    requires |m| == 3
    ensures Uint3korr(m) == LeValue(m)
  {
    LeOfThree(m);
    Shifts(m[1]);
    Shifts(m[2]);
  }

  lemma KorrOfWord(w: seq<Byte>, n: int)
    requires Width(n) && |w| == n
    ensures Korr(w, n) == LeValue(w)
  {
    match n
    case 2 => Uint2IsLe(w);
    case 3 => Uint3IsLe(w);
    case 4 => Uint4IsLe(w); assert w[..4] == w;
    case 5 => Uint5IsLe(w);
    case 6 => Uint6IsLe(w);
    case _ => Uint8IsLe(w);
  }

  /** Each unsigned load is the low-byte-first value of its bytes; no intermediate shift or sum overflows. */
  lemma KorrIsLe(m: seq<Byte>, n: int)
    requires Width(n) && |m| >= n
    ensures Korr(m, n) == LeValue(m[..n])
  {
    SameBytesSameLoad(m, n);
    KorrOfWord(m[..n], n);
  }

  // ----- signed loads -----

  /** The sign of the whole is the sign of its top byte. */
  lemma SignOfTop(low: int, b: Byte)
    requires 0 <= low < TWO24
    ensures low + AsSigned(b * TWO24 % TWO32, TWO31) == AsSigned(low + b * TWO24, TWO31)
  {
    assert b * TWO24 % TWO32 == b * TWO24;
  }

  lemma Sint24korr(m: seq<Byte>)
    ensures |m| >= 2 ==> Sint2korr(m) == AsSigned(Uint2korr(m), TWO15)
    ensures |m| >= 4 ==> Sint4korr(m) == AsSigned(Uint4korr(m), TWO31)
  {
    if |m| >= 4 {
      SumOfFour(m[0], m[1], m[2], m[3]);
      SignOfTop(m[0] + m[1] * TWO8 + m[2] * TWO16, m[3]);
    }
  }

  lemma OrShifted(q: nat, y: nat, k: nat, p: nat)
    requires (k == 8 && p == TWO8) || (k == 16 && p == TWO16) || (k == 24 && p == TWO24)
    requires y < p
    ensures BitOr(q * p, y) == q * p + y
  {
    Pow2Values();
    MultipleMod(q, p);
    OrIsSum(q * p, y, k);
  }

  lemma OrIsSumOfThree(b2: Byte, b1: Byte, b0: Byte)
    ensures OrOfThree(b2, b1, b0) == b2 * TWO16 + b1 * TWO8 + b0
  {
    Shifts(b2);
    Shifts(b1);
    OrShifted(b2, b1 * TWO8, 16, TWO16);
    OrShifted(b2 * TWO8 + b1, b0, 8, TWO8);
    assert (b2 * TWO8 + b1) * TWO8 == b2 * TWO16 + b1 * TWO8;
  }

  lemma OrIsSumOfFour(b3: Byte, b2: Byte, b1: Byte, b0: Byte)
    ensures OrOfFour(b3, b2, b1, b0) == b3 * TWO24 + b2 * TWO16 + b1 * TWO8 + b0
  {
    Shifts(b3);
    Shifts(b2);
    Shifts(b1);
    OrShifted(b3, b2 * TWO16, 24, TWO24);
    OrShifted(b3 * TWO8 + b2, b1 * TWO8, 16, TWO16);
    assert (b3 * TWO8 + b2) * TWO16 == b3 * TWO24 + b2 * TWO16;
    OrShifted((b3 * TWO8 + b2) * TWO8 + b1, b0, 8, TWO8);
    assert ((b3 * TWO8 + b2) * TWO8 + b1) * TWO8 == b3 * TWO24 + b2 * TWO16 + b1 * TWO8;
  }

  lemma SignExtend(v: int)
    requires TWO23 <= v < TWO24
    ensures AsSigned(255 * TWO24 + v, TWO31) == AsSigned(v, TWO23)
  {
  }

  /** The three-byte signed load is the two's-complement reading of 24 bits. */
  lemma Sint3IsSigned(m: seq<Byte>)
    requires |m| >= 3
    ensures Sint3korr(m) == AsSigned(Uint3korr(m), TWO23)
  {
    var v := m[0] + m[1] * TWO8 + m[2] * TWO16;
    assert Uint3korr(m) == v;
    assert Bit128(m[2]) <==> v >= TWO23;
    OrIsSumOfThree(m[2], m[1], m[0]);
    if Bit128(m[2]) {
      OrIsSumOfFour(255, m[2], m[1], m[0]);
      SignExtend(v);
    }
  }

  // ----- stores -----

  /** Memory m with these bytes written at p. */
  function Stored(m: seq<Byte>, p: nat, bytes: seq<Byte>): (r: seq<Byte>)
    requires p + |bytes| <= |m|
    ensures |r| == |m|
  {
    m[..p] + bytes + m[p + |bytes|..]
  }

  /** The byte a cast to uchar keeps. */
  function Low8(v: int): Byte {
    v % 256
  }

  /** Writing byte after byte fills the place with exactly those bytes. */
  lemma StoredIs(m: seq<Byte>, m': seq<Byte>, p: nat, bytes: seq<Byte>)
    requires |m| == |m'| && p + |bytes| <= |m|
    requires forall i :: 0 <= i < |bytes| ==> m'[p + i] == bytes[i]
    requires forall i :: 0 <= i < p || p + |bytes| <= i < |m| ==> m'[i] == m[i]
    ensures m' == Stored(m, p, bytes)
  {
    forall i | 0 <= i < |m| ensures m'[i] == Stored(m, p, bytes)[i] {
      if p <= i < p + |bytes| {
        assert m'[p + (i - p)] == bytes[i - p];
      }
    }
  }

  lemma ByteShifts(v: nat, n: nat)
    requires n <= 8
    ensures n > 0 ==> LeBytes(v, n)[0] == Low8(v)
    ensures n > 1 ==> LeBytes(v, n)[1] == Low8(v / TWO8)
    ensures n > 2 ==> LeBytes(v, n)[2] == Low8(v / TWO16)
    ensures n > 3 ==> LeBytes(v, n)[3] == Low8(v / TWO24)
    ensures n > 4 ==> LeBytes(v, n)[4] == Low8(v / TWO32)
    ensures n > 5 ==> LeBytes(v, n)[5] == Low8(v / TWO40)
  {
    PowValues();
    forall i | 0 <= i < n ensures Pow256(i) > 0 && LeBytes(v, n)[i] == v / Pow256(i) % 256 {
      LeByteAt(v, n, i);
    }
  }

  method Int2store(T: array<Byte>, p: nat, A: int)
    requires 0 <= A < TWO16 && p + 2 <= T.Length
    modifies T
    ensures T[..] == Stored(old(T[..]), p, LeBytes(A, 2))
  {
    ByteShifts(A, 2);
    T[p] := Low8(A);
    T[p + 1] := Low8(A / TWO8);
    StoredIs(old(T[..]), T[..], p, LeBytes(A, 2));
  }

  /** The argument is a 32-bit unsigned; its top byte is dropped. */
  method Int3store(T: array<Byte>, p: nat, A: int)
    requires 0 <= A < TWO32 && p + 3 <= T.Length
    modifies T
    ensures T[..] == Stored(old(T[..]), p, LeBytes(A, 3))
  {
    ByteShifts(A, 3);
    T[p] := Low8(A);
    T[p + 1] := Low8(A / TWO8);
    T[p + 2] := Low8(A / TWO16);
    StoredIs(old(T[..]), T[..], p, LeBytes(A, 3));
  }

  method Int4store(T: array<Byte>, p: nat, A: int)
    requires 0 <= A < TWO32 && p + 4 <= T.Length
    modifies T
    ensures T[..] == Stored(old(T[..]), p, LeBytes(A, 4))
  {
    ByteShifts(A, 4);
    T[p] := Low8(A);
    T[p + 1] := Low8(A / TWO8);
    T[p + 2] := Low8(A / TWO16);
    T[p + 3] := Low8(A / TWO24);
    StoredIs(old(T[..]), T[..], p, LeBytes(A, 4));
  }

  method Int5store(T: array<Byte>, p: nat, A: int)
    requires 0 <= A < TWO64 && p + 5 <= T.Length
    modifies T
    ensures T[..] == Stored(old(T[..]), p, LeBytes(A, 5))
  {
    ByteShifts(A, 5);
    T[p] := Low8(A);
    T[p + 1] := Low8(A / TWO8);
    T[p + 2] := Low8(A / TWO16);
    T[p + 3] := Low8(A / TWO24);
    T[p + 4] := Low8(A / TWO32);
    StoredIs(old(T[..]), T[..], p, LeBytes(A, 5));
  }

  method Int6store(T: array<Byte>, p: nat, A: int)
    requires 0 <= A < TWO64 && p + 6 <= T.Length
    modifies T
    ensures T[..] == Stored(old(T[..]), p, LeBytes(A, 6))
  {
    ByteShifts(A, 6);
    T[p] := Low8(A);
    T[p + 1] := Low8(A / TWO8);
    T[p + 2] := Low8(A / TWO16);
    T[p + 3] := Low8(A / TWO24);
    T[p + 4] := Low8(A / TWO32);
    T[p + 5] := Low8(A / TWO40);
    StoredIs(old(T[..]), T[..], p, LeBytes(A, 6));
  }

  lemma JoinedHalves(v: nat, low: seq<Byte>, high: seq<Byte>)
    requires |low| == |high| == 4 && v < Pow256(8) && v == LeValue(low) + TWO32 * LeValue(high)
    ensures LeBytes(v, 8) == low + high
  {
    assert (low + high)[..4] == low && (low + high)[4..] == high;
    LeSplitFour(low + high);
    BytesOfValue(low + high);
  }

  lemma HalvesOf(v: nat)
    requires v < TWO64
    ensures 0 <= v % TWO32 < TWO32 && 0 <= v / TWO32 % TWO32 < TWO32
    ensures v % TWO32 + TWO32 * (v / TWO32 % TWO32) == v
  {
  }

  /** An eight-byte value written as its low and its high half. */
  lemma LeBytesHalves(v: nat, lo: nat, hi: nat)
    requires lo < TWO32 && hi < TWO32 && v == lo + TWO32 * hi
    ensures LeBytes(v, 8) == LeBytes(lo, 4) + LeBytes(hi, 4)
  {
    PowValues();
    ValueOfBytes(lo, 4);
    ValueOfBytes(hi, 4);
    JoinedHalves(v, LeBytes(lo, 4), LeBytes(hi, 4));
  }

  lemma StoredTwice(m: seq<Byte>, p: nat, a: seq<Byte>, b: seq<Byte>)
    requires p + |a| + |b| <= |m|
    ensures Stored(Stored(m, p, a), p + |a|, b) == Stored(m, p, a + b)
  {
  }

  method StoreHalves(T: array<Byte>, p: nat, low: int, high: int)
    requires 0 <= low < TWO32 && 0 <= high < TWO32 && p + 8 <= T.Length
    modifies T
    ensures T[..] == Stored(old(T[..]), p, LeBytes(low, 4) + LeBytes(high, 4))
  {
    StoredTwice(T[..], p, LeBytes(low, 4), LeBytes(high, 4));
    Int4store(T, p, low);
    Int4store(T, p + 4, high);
  }

  method Int8store(T: array<Byte>, p: nat, A: int)
    requires 0 <= A < TWO64 && p + 8 <= T.Length
    modifies T
    ensures T[..] == Stored(old(T[..]), p, LeBytes(A, 8))
  {
    var defTemp, defTemp2 := A % TWO32, A / TWO32 % TWO32;
    HalvesOf(A);
    StoreHalves(T, p, defTemp, defTemp2);
    LeBytesHalves(A, defTemp, defTemp2);
  }

  // ----- the pointer-cast forms, on a little-endian machine -----

  /** One machine access of n bytes: the lowest byte lies at the lowest address. */
  function MachineLoad(m: seq<Byte>, n: int): int
    requires 0 <= n <= |m|
  {
    LeValue(m[..n])
  }

  function MachineLoadSigned(m: seq<Byte>, n: int): int
    requires 1 <= n <= |m|
  {
    AsSigned(LeValue(m[..n]), Pow256(n) / 2)
  }

  method MachineStore(T: array<Byte>, p: nat, A: int, n: nat)
    requires 0 <= A < Pow256(n) && p + n <= T.Length
    modifies T
    ensures T[..] == Stored(old(T[..]), p, LeBytes(A, n))
  {
    var word := LeBytes(A, n);
    var i := 0;
    while i < n
      invariant 0 <= i <= n
      invariant forall k :: 0 <= k < i ==> T[p + k] == word[k]
      invariant forall k :: 0 <= k < p || p + i <= k < T.Length ==> T[k] == old(T[k])
    {
      T[p + i] := word[i];
      i := i + 1;
    }
    StoredIs(old(T[..]), T[..], p, word);
  }

  /** The pointer-cast loads agree with the shift-and-add loads, unsigned and signed. (The stores agree
      by their contracts: both leave Stored(m, p, LeBytes(A, n)).) */
  lemma CastLoadsAgree(m: seq<Byte>, n: int)
    requires (n == 2 || n == 4 || n == 8) && |m| >= n
    ensures MachineLoad(m, n) == Korr(m, n)
    ensures MachineLoadSigned(m, n) == (if n == 2 then Sint2korr(m) else if n == 4 then Sint4korr(m) else Sint8korr(m))
  {
    KorrIsLe(m, n);
    PowValues();
    if n < 8 {
      Sint24korr(m);
    }
  }

  // ----- round trips -----

  lemma SliceOfStored(m: seq<Byte>, p: nat, bytes: seq<Byte>)
    requires p + |bytes| <= |m|
    ensures Stored(m, p, bytes)[p..][..|bytes|] == bytes
  {
  }

  /** Store then load is the identity on every value of the width. */
  lemma LoadOfStore(m: seq<Byte>, p: nat, A: int, n: int)
    requires Width(n) && p + n <= |m| && 0 <= A < Pow256(n)
    ensures Korr(Stored(m, p, LeBytes(A, n))[p..], n) == A
  {
    SliceOfStored(m, p, LeBytes(A, n));
    KorrIsLe(Stored(m, p, LeBytes(A, n))[p..], n);
    ValueOfBytes(A, n);
  }

  lemma StoredBack(m: seq<Byte>, p: nat, n: nat)
    requires p + n <= |m|
    ensures LeValue(m[p..p + n]) < Pow256(n)
    ensures Stored(m, p, LeBytes(LeValue(m[p..p + n]), n)) == m
  {
    var bytes := m[p..p + n];
    LeBound(bytes);
    BytesOfValue(bytes);
    StoredIs(m, m, p, bytes);
  }

  /** Load then store is the identity on every memory. */
  lemma StoreOfLoad(m: seq<Byte>, p: nat, n: int)
    requires Width(n) && p + n <= |m|
    ensures 0 <= Korr(m[p..], n) < Pow256(n)
    ensures Stored(m, p, LeBytes(Korr(m[p..], n), n)) == m
  {
    KorrIsLe(m[p..], n);
    assert m[p..][..n] == m[p..p + n];
    StoredBack(m, p, n);
  }

  /** A signed value stored as its unsigned image is read back by the signed load: 2, 3, 4 and 8 bytes. */
  lemma SignedRoundTrip(m: seq<Byte>, p: nat, v: int, n: int)
    requires (n == 2 || n == 3 || n == 4 || n == 8) && p + n <= |m|
    requires 0 - Pow256(n) / 2 <= v < Pow256(n) / 2
    ensures 0 <= AsUnsigned(v, Pow256(n) / 2) < Pow256(n)
    ensures var r := Stored(m, p, LeBytes(AsUnsigned(v, Pow256(n) / 2), n))[p..];
      v == match n case 2 => Sint2korr(r) case 3 => Sint3korr(r) case 4 => Sint4korr(r) case _ => Sint8korr(r)
  {
    PowValues();
    var u := AsUnsigned(v, Pow256(n) / 2);
    var r := Stored(m, p, LeBytes(u, n))[p..];
    LoadOfStore(m, p, u, n);
    if n == 3 {
      Sint3IsSigned(r);
    } else if n < 8 {
      Sint24korr(r);
    }
  }

  /** int3store takes the signed value cast to 32 bits and drops the top byte: nothing is lost in 24 bits. */
  lemma Int3storeOfSigned(v: int)
    requires 0 - TWO23 <= v < TWO23
    ensures 0 <= AsUnsigned(v, TWO31) < TWO32
    ensures LeBytes(AsUnsigned(v, TWO31), 3) == LeBytes(AsUnsigned(v, TWO23), 3)
  {
    var wide, narrow := AsUnsigned(v, TWO31), AsUnsigned(v, TWO23);
    ByteShifts(wide, 3);
    ByteShifts(narrow, 3);
    if v < 0 {
      SameLowBytes(narrow);
    }
  }

  lemma SameLowBytes(narrow: nat)
    ensures var wide := narrow + 255 * TWO24;
      && Low8(wide) == Low8(narrow)
      && Low8(wide / TWO8) == Low8(narrow / TWO8)
      && Low8(wide / TWO16) == Low8(narrow / TWO16)
  {
    assert (narrow + 255 * TWO24) / TWO8 == narrow / TWO8 + 255 * TWO16;
    assert (narrow + 255 * TWO24) / TWO16 == narrow / TWO16 + 255 * TWO8;
  }
}
