/** The integer get and store functions of big_endian.h, on a big-endian machine. */
module BigEndian {
  import opened Bytes
  import opened ByteOrder

  function Ushortget(m: seq<Byte>): int
    requires |m| >= 2
  {
    (m[1] + m[0] * TWO8) % TWO16
  }

  function Shortget(m: seq<Byte>): int
    requires |m| >= 2
  {
    AsSigned((m[1] + m[0] * TWO8) % TWO16, TWO15)
  }

  /** What a big-endian machine sees in an object with these bytes. */
  function ObjectValue(bytes: seq<Byte>): int {
    BeValue(bytes)
  }

  /** The four bytes are copied into a local object, which is then read as a number. */
  method Ulongget(m: seq<Byte>) returns (v: int)
    requires |m| >= 4
    ensures v == BeValue(m[..4])
  {
    var defTemp := new Byte[4];
    defTemp[0] := m[0];
    defTemp[1] := m[1];
    defTemp[2] := m[2];
    defTemp[3] := m[3];
    assert defTemp[..] == m[..4];
    v := ObjectValue(defTemp[..]);
  }

  method Longget(m: seq<Byte>) returns (v: int)
    requires |m| >= 4
    ensures v == AsSigned(BeValue(m[..4]), TWO31)
  {
    var u := Ulongget(m);
    v := AsSigned(u, TWO31);
  }

  lemma BeOfTwo(m: seq<Byte>)
    requires |m| == 2
    ensures BeValue(m) == m[1] + m[0] * TWO8
  {
    LeOfTwo(Reverse(m));
  }

  /** The short loads are the high-byte-first value of two bytes, unsigned and signed. */
  lemma ShortIsBe(m: seq<Byte>)
    requires |m| >= 2
    ensures Ushortget(m) == BeValue(m[..2]) && Shortget(m) == AsSigned(BeValue(m[..2]), TWO15)
  {
    BeOfTwo(m[..2]);
  }

  method Shortstore(T: array<Byte>, p: nat, A: int)
    requires 0 - TWO15 <= A < TWO15 && p + 2 <= T.Length
    modifies T
    ensures T[..] == Stored(old(T[..]), p, BeBytes(AsUnsigned(A, TWO15), 2))
  {
    var defTemp := AsUnsigned(A, TWO31);
    T[p + 1] := Low8(defTemp);
    T[p] := Low8(defTemp / TWO8);
    ByteShifts(AsUnsigned(A, TWO15), 2);
    StoredIs(old(T[..]), T[..], p, BeBytes(AsUnsigned(A, TWO15), 2));
  }

  /** Adding 2^32 does not change the low byte after a shift by up to three bytes. */
  lemma ShiftByNone(A: int)
    ensures Low8(A + TWO32) == Low8(A)
  {
    assert A + TWO32 == A + 256 * TWO24;
  }

  lemma ShiftBy8(A: int)
    ensures Low8((A + TWO32) / TWO8) == Low8(A / TWO8)
  {
    assert (A + TWO32) / TWO8 == A / TWO8 + TWO24;
  }

  lemma ShiftBy16(A: int)
    ensures Low8((A + TWO32) / TWO16) == Low8(A / TWO16)
  {
    assert (A + TWO32) / TWO16 == A / TWO16 + TWO16;
  }

  lemma ShiftBy24(A: int)
    ensures Low8((A + TWO32) / TWO24) == Low8(A / TWO24)
  {
    assert (A + TWO32) / TWO24 == A / TWO24 + TWO8;
  }

  lemma ShiftedBytes(A: int)
    requires 0 - TWO31 <= A < TWO31
    ensures var u := AsUnsigned(A, TWO31);
      && Low8(A) == Low8(u) && Low8(A / TWO8) == Low8(u / TWO8)
      && Low8(A / TWO16) == Low8(u / TWO16) && Low8(A / TWO24) == Low8(u / TWO24)
  {
    if A < 0 {
      ShiftByNone(A);
      ShiftBy8(A);
      ShiftBy16(A);
      ShiftBy24(A);
    }
  }

  lemma BeBytesOfFour(v: nat)
    ensures BeBytes(v, 4) == [Low8(v / TWO24), Low8(v / TWO16), Low8(v / TWO8), Low8(v)]
  {
    ByteShifts(v, 4);
  }

  /** A right shift of a negative number keeps the sign, which is division rounding down. */
  method Longstore(T: array<Byte>, p: nat, A: int)
    requires 0 - TWO31 <= A < TWO31 && p + 4 <= T.Length
    modifies T
    ensures T[..] == Stored(old(T[..]), p, BeBytes(AsUnsigned(A, TWO31), 4))
  {
    T[p + 3] := Low8(A);
    T[p + 2] := Low8(A / TWO8);
    T[p + 1] := Low8(A / TWO16);
    T[p] := Low8(A / TWO24);
    ShiftedBytes(A);
    BeBytesOfFour(AsUnsigned(A, TWO31));
    StoredIs(old(T[..]), T[..], p, BeBytes(AsUnsigned(A, TWO31), 4));
  }

  lemma BeOfBytes(v: nat, n: nat)
    requires v < Pow256(n)
    ensures BeValue(BeBytes(v, n)) == v
  {
    ReverseTwice(LeBytes(v, n));
    ValueOfBytes(v, n);
  }

  lemma BytesOfBe(bytes: seq<Byte>)
    ensures BeBytes(BeValue(bytes), |bytes|) == bytes
  {
    ReverseTwice(bytes);
    BytesOfValue(Reverse(bytes));
  }

  /** Store then get, short: every value of 16 bits comes back. */
  lemma ShortRoundTrip(m: seq<Byte>, p: nat, A: int)
    requires 0 - TWO15 <= A < TWO15 && p + 2 <= |m|
    ensures Shortget(Stored(m, p, BeBytes(AsUnsigned(A, TWO15), 2))[p..]) == A
  {
    PowValues();
    SliceOfStored(m, p, BeBytes(AsUnsigned(A, TWO15), 2));
    BeOfBytes(AsUnsigned(A, TWO15), 2);
    ShortIsBe(Stored(m, p, BeBytes(AsUnsigned(A, TWO15), 2))[p..]);
  }

  /** Store then get, long, through both methods. */
  method LongRoundTrip(T: array<Byte>, p: nat, A: int) returns (v: int)
    requires 0 - TWO31 <= A < TWO31 && p + 4 <= T.Length
    modifies T
    ensures v == A
  {
    Longstore(T, p, A);
    PowValues();
    SliceOfStored(old(T[..]), p, BeBytes(AsUnsigned(A, TWO31), 4));
    BeOfBytes(AsUnsigned(A, TWO31), 4);
    v := Longget(T[..][p..]);
  }

  lemma SignTwice(v: int, half: int)
    requires 0 <= v < 2 * half
    ensures AsUnsigned(AsSigned(v, half), half) == v && 0 - half <= AsSigned(v, half) < half
  {
  }

  /** Get then store changes no byte, whatever the bytes are. */
  lemma GetThenStore(bytes: seq<Byte>)
    requires |bytes| == 2 || |bytes| == 4
    ensures var half := if |bytes| == 2 then TWO15 else TWO31;
      BeBytes(AsUnsigned(AsSigned(BeValue(bytes), half), half), |bytes|) == bytes
  {
    var half := if |bytes| == 2 then TWO15 else TWO31;
    PowValues();
    LeBound(Reverse(bytes));
    SignTwice(BeValue(bytes), half);
    BytesOfBe(bytes);
  }
}
