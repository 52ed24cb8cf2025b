/** Row numbers printed with "%d" into a five-byte buffer and used as JSON keys. */
module DecimalKeys {
  const INDEX_BUFFER := 5

  function DigitChar(d: int): (c: char)
    requires 0 <= d < 10
    ensures '0' <= c <= '9' && c as int - '0' as int == d
  {
    ('0' as int + d) as char
  }

  function Decimal(n: nat): (s: string)
    ensures |s| > 0 && (|s| == 1 <==> n < 10)
    ensures forall i :: 0 <= i < |s| ==> '0' <= s[i] <= '9'
  {
    if n < 10 then [DigitChar(n)] else Decimal(n / 10) + [DigitChar(n % 10)]
  }

  /** sprintf_s refuses a number whose digits and final zero do not fit. */
  predicate Fits(n: nat) {
    |Decimal(n)| + 1 <= INDEX_BUFFER
  }

  lemma {:induction false} DecimalInjective(a: nat, b: nat)
    requires Decimal(a) == Decimal(b)
    ensures a == b
  {
    var s := Decimal(a);
    assert s[|s| - 1] == DigitChar(a % 10) && s[|s| - 1] == DigitChar(b % 10);
    if a >= 10 {
      assert s[..|s| - 1] == Decimal(a / 10) && s[..|s| - 1] == Decimal(b / 10);
      DecimalInjective(a / 10, b / 10);
    }
  }

  lemma DecimalLength(n: nat)
    ensures Fits(n) <==> n < 10000
  {
    if n >= 10 {
      assert |Decimal(n)| == |Decimal(n / 10)| + 1;
      if n / 10 >= 10 {
        assert |Decimal(n / 10)| == |Decimal(n / 10 / 10)| + 1;
        if n / 10 / 10 >= 10 {
          assert |Decimal(n / 10 / 10)| == |Decimal(n / 10 / 10 / 10)| + 1;
        }
      }
    }
  }

  /** A word starting with a letter is no row key. */
  lemma DecimalIsNoWord(n: nat, word: string)
    requires |word| > 0 && 'a' <= word[0] <= 'z'
    ensures Decimal(n) != word
  {
  }

  lemma DistinctKeys(n: nat)
    ensures forall i, j :: 0 <= i < n && 0 <= j < n && Decimal(i) == Decimal(j) ==> i == j
  {
    forall i, j | 0 <= i < n && 0 <= j < n && Decimal(i) == Decimal(j) ensures i == j {
      DecimalInjective(i, j);
    }
  }

  // ----- what "%d" prints -----

  /** The number read from left to right. */
  function ReadOn(sofar: nat, s: string): nat
    requires forall i :: 0 <= i < |s| ==> '0' <= s[i] <= '9'
    decreases |s|
  {
    if s == [] then sofar else ReadOn(10 * sofar + (s[0] as int - '0' as int), s[1..])
  }

  /** Digits only, no leading zero, and n when read from left to right. */
  predicate IsNumeral(s: string, n: nat) {
    && |s| > 0 && (forall i :: 0 <= i < |s| ==> '0' <= s[i] <= '9')
    && (|s| > 1 ==> s[0] != '0') && ReadOn(0, s) == n
  }

  lemma {:induction false} ReadLast(sofar: nat, s: string, c: char)
    requires '0' <= c <= '9' && forall i :: 0 <= i < |s| ==> '0' <= s[i] <= '9'
    ensures ReadOn(sofar, s + [c]) == 10 * ReadOn(sofar, s) + (c as int - '0' as int)
    decreases |s|
  {
    if s == [] {
      assert ([] + [c])[1..] == [];
    } else {
      assert (s + [c])[0] == s[0] && (s + [c])[1..] == s[1..] + [c];
      ReadLast(10 * sofar + (s[0] as int - '0' as int), s[1..], c);
    }
  }

  lemma {:induction false} DecimalIsNumeral(n: nat)
    ensures IsNumeral(Decimal(n), n)
  {
    if n < 10 {
      assert Decimal(n)[1..] == [];
    } else {
      DecimalIsNumeral(n / 10);
      ReadLast(0, Decimal(n / 10), DigitChar(n % 10));
      DecimalIsPositive(n / 10);
    }
  }

  /** A positive number begins with another digit than zero. */
  lemma {:induction false} DecimalIsPositive(n: nat)
    requires n > 0
    ensures Decimal(n)[0] != '0'
  {
    if n >= 10 {
      DecimalIsPositive(n / 10);
      assert Decimal(n)[0] == Decimal(n / 10)[0];
    }
  }

  lemma {:induction false} ReadAtLeast(sofar: nat, s: string)
    requires forall i :: 0 <= i < |s| ==> '0' <= s[i] <= '9'
    ensures ReadOn(sofar, s) >= sofar
    decreases |s|
  {
    if s != [] {
      ReadAtLeast(10 * sofar + (s[0] as int - '0' as int), s[1..]);
    }
  }

  /** There is no other numeral. */
  lemma {:induction false} NumeralIsDecimal(s: string, n: nat)
    requires IsNumeral(s, n)
    ensures s == Decimal(n)
    decreases |s|
  {
    var front, c := s[..|s| - 1], s[|s| - 1];
    assert s == front + [c];
    ReadLast(0, front, c);
    if front == [] {
      assert ReadOn(0, front) == 0;
    } else {
      ReadAtLeast(s[0] as int - '0' as int, front[1..]);
      assert ReadOn(0, front) == ReadOn(s[0] as int - '0' as int, front[1..]) > 0;
      assert n / 10 == ReadOn(0, front) && n % 10 == c as int - '0' as int;
      NumeralIsDecimal(front, n / 10);
    }
  }

  /** The key is the decimal numeral of the row number. */
  lemma DecimalIff(s: string, n: nat)
    ensures s == Decimal(n) <==> IsNumeral(s, n)
  {
    DecimalIsNumeral(n);
    if IsNumeral(s, n) {
      NumeralIsDecimal(s, n);
    }
  }
}
