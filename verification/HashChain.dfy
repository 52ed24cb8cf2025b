/** The iterated hash of client and server: MD5, then lowercase hex, a given number of times.
    MD5 itself is a parameter: every result holds for any function from strings to 16 bytes. */
module HashChain {
  import opened Bytes

  type Digest = d: seq<Byte> | |d| == DIGEST_LENGTH witness seq(DIGEST_LENGTH, _ => 0)
  type Md5 = string -> Digest

  const DIGEST_LENGTH := 16
  const HEX_LENGTH := 32

  // ----- lowercase hexadecimal -----

  predicate IsHexDigit(c: char) {
    '0' <= c <= '9' || 'a' <= c <= 'f'
  }

  function DigitValue(c: char): (v: int)
    ensures 0 <= v < 16
  {
    if '0' <= c <= '9' then c as int - '0' as int
    else if 'a' <= c <= 'f' then c as int - 'a' as int + 10
    else 0
  }

  function HexDigit(v: int): (c: char)
    requires 0 <= v < 16
    ensures IsHexDigit(c) && DigitValue(c) == v
  {
    if v < 10 then ('0' as int + v) as char else ('a' as int + v - 10) as char
  }

  /** Two digits a byte, the high one first, as setw(2), setfill('0') and hex print it. */
  function Hex(bytes: seq<Byte>): (s: string)
    ensures |s| == 2 * |bytes| && IsHex(s)
  {
    seq(2 * |bytes|, i requires 0 <= i < 2 * |bytes| =>
      HexDigit(if i % 2 == 0 then bytes[i / 2] / 16 else bytes[i / 2] % 16))
  }

  predicate IsHex(s: string) {
    forall i :: 0 <= i < |s| ==> IsHexDigit(s[i])
  }

  function Unhex(s: string): seq<Byte> {
    seq(|s| / 2, i requires 0 <= i < |s| / 2 => 16 * DigitValue(s[2 * i]) + DigitValue(s[2 * i + 1]))
  }

  lemma HexAppend(bytes: seq<Byte>, b: Byte)
    ensures Hex(bytes + [b]) == Hex(bytes) + [HexDigit(b / 16), HexDigit(b % 16)]
  {
  }

  lemma HexAt(bytes: seq<Byte>, i: int)
    requires 0 <= i < |bytes|
    ensures Hex(bytes)[2 * i] == HexDigit(bytes[i] / 16)
    ensures Hex(bytes)[2 * i + 1] == HexDigit(bytes[i] % 16)
  {
    assert (2 * i) / 2 == i && (2 * i) % 2 == 0;
    assert (2 * i + 1) / 2 == i && (2 * i + 1) % 2 == 1;
  }

  /** The hex step loses nothing: every byte string is read back from its hex form. */
  lemma UnhexOfHex(bytes: seq<Byte>)
    ensures Unhex(Hex(bytes)) == bytes
  {
    var back := Unhex(Hex(bytes));
    assert |back| == |bytes|;
    forall i | 0 <= i < |bytes| ensures back[i] == bytes[i] {
      HexAt(bytes, i);
    }
  }

  /** Conversely every even-length lowercase hex string is the hex form of the bytes read from it. */
  lemma HexOfUnhex(s: string)
    requires IsHex(s) && |s| % 2 == 0
    ensures Hex(Unhex(s)) == s
  {
    var bytes := Unhex(s);
    forall i | 0 <= i < |s| ensures Hex(bytes)[i] == s[i] {
      assert i == 2 * (i / 2) || i == 2 * (i / 2) + 1;
      HexAt(bytes, i / 2);
      DigitsOf(s, i / 2);
    }
  }

  lemma DigitsOf(s: string, k: nat)
    requires IsHex(s) && 2 * k + 1 < |s|
    ensures HexDigit(Unhex(s)[k] / 16) == s[2 * k] && HexDigit(Unhex(s)[k] % 16) == s[2 * k + 1]
  {
    var hi, lo := DigitValue(s[2 * k]), DigitValue(s[2 * k + 1]);
    assert IsHexDigit(s[2 * k]) && IsHexDigit(s[2 * k + 1]);
    assert (16 * hi + lo) / 16 == hi && (16 * hi + lo) % 16 == lo;
  }

  lemma HexInjective(a: seq<Byte>, b: seq<Byte>)
    requires Hex(a) == Hex(b)
    ensures a == b
  {
    UnhexOfHex(a);
    UnhexOfHex(b);
  }

  // ----- the chain -----

  /** The n-th iterate of "MD5 then hex" starting at s. */
  function Chain(md5: Md5, s: string, n: int): string {
    if n <= 0 then s else Hex(md5(Chain(md5, s, n - 1)))
  }

  /** Two characters a byte, in the order of the bytes, the high digit first. */
  predicate Prints(bytes: seq<Byte>, s: string) {
    |s| == 2 * |bytes| && forall i :: 0 <= i < |bytes| ==>
      var b := bytes[i];
      && s[2 * i] as int == (if b / 16 < 10 then '0' as int + b / 16 else 'a' as int + b / 16 - 10)
      && s[2 * i + 1] as int == (if b % 16 < 10 then '0' as int + b % 16 else 'a' as int + b % 16 - 10)
  }

  lemma HexPrints(bytes: seq<Byte>)
    ensures Prints(bytes, Hex(bytes))
  {
    forall i | 0 <= i < |bytes|
      ensures Hex(bytes)[2 * i] == HexDigit(bytes[i] / 16) && Hex(bytes)[2 * i + 1] == HexDigit(bytes[i] % 16)
    {
      HexAt(bytes, i);
    }
  }

  /** No round leaves the seed; each round prints the digest of the link before it. */
  lemma LinkIsPrinted(md5: Md5, s: string, n: int)
    ensures n <= 0 ==> Chain(md5, s, n) == s
    ensures n >= 1 ==> Prints(md5(Chain(md5, s, n - 1)), Chain(md5, s, n))
    ensures n == 1 ==> Prints(md5(s), Chain(md5, s, n))
  {
    if n >= 1 {
      HexPrints(md5(Chain(md5, s, n - 1)));
    }
  }

  /** The two loops of PasswdToMD5: rounds outside, the digits of one digest inside. */
  method HashRounds(md5: Md5, seed: string, challenge: int) returns (md5str: string)
    ensures md5str == Chain(md5, seed, challenge)
  {
    md5str := seed;
    var ss := "";
    var i := 0;
    while i < challenge
      invariant 0 <= i && (i == 0 || i <= challenge)
      invariant ss == ""
      invariant md5str == Chain(md5, seed, i)
    {
      var digest: seq<Byte> := md5(md5str);
      var j := 0;
      while j < DIGEST_LENGTH
        invariant 0 <= j <= DIGEST_LENGTH == |digest|
        invariant ss == Hex(digest[..j])
      {
        HexAppend(digest[..j], digest[j]);
        assert digest[..j + 1] == digest[..j] + [digest[j]];
        ss := ss + [HexDigit(digest[j] / 16), HexDigit(digest[j] % 16)];
        j := j + 1;
      }
      assert digest[..j] == digest;
      md5str := ss;
      ss := "";
      i := i + 1;
    }
  }

  /** No round returns the seed; each round prints the digest of what the round before it gave. */
  method PasswdToMD5(md5: Md5, password: string, rand: string, challenge: int) returns (md5str: string)
    ensures md5str == Chain(md5, password + rand, challenge)
    ensures challenge <= 0 ==> md5str == password + rand
    ensures challenge == 1 ==> Prints(md5(password + rand), md5str)
    ensures challenge > 1 ==> Prints(md5(Chain(md5, password + rand, challenge - 1)), md5str)
  {
    md5str := HashRounds(md5, password + rand, challenge);
    LinkIsPrinted(md5, password + rand, challenge);
  }

  /** One round, character by character. */
  method OneRound(md5: Md5, password: string, rand: string) returns (md5str: string)
    ensures |md5str| == 32
    ensures forall i :: 0 <= i < 16 ==>
      var b := md5(password + rand)[i];
      && md5str[2 * i] as int == (if b / 16 < 10 then '0' as int + b / 16 else 'a' as int + b / 16 - 10)
      && md5str[2 * i + 1] as int == (if b % 16 < 10 then '0' as int + b % 16 else 'a' as int + b % 16 - 10)
  {
    md5str := PasswdToMD5(md5, password, rand, 1);
  }

  lemma {:induction false} ChainShape(md5: Md5, s: string, n: int)
    requires n >= 1
    ensures |Chain(md5, s, n)| == HEX_LENGTH && IsHex(Chain(md5, s, n))
  {
    assert |md5(Chain(md5, s, n - 1))| == DIGEST_LENGTH;
  }

  /** Hashing a + b times is hashing a times and then b times more. */
  lemma {:induction false} ChainAdditive(md5: Md5, s: string, a: int, b: int)
    requires a >= 0 && b >= 0
    ensures Chain(md5, Chain(md5, s, a), b) == Chain(md5, s, a + b)
  {
    if b > 0 {
      ChainAdditive(md5, s, a, b - 1);
    }
  }

  /** The same law on the two-argument form: the server's check hashes the reply with an empty random. */
  lemma ChainRestart(md5: Md5, password: string, rand: string, a: int, b: int)
    requires a >= 0 && b >= 0
    ensures Chain(md5, Chain(md5, password + rand, a) + "", b) == Chain(md5, password + rand, a + b)
  {
    assert Chain(md5, password + rand, a) + "" == Chain(md5, password + rand, a);
    ChainAdditive(md5, password + rand, a, b);
  }

  // ----- distinctness, from the absence of collisions among finitely many strings -----

  ghost predicate Apart(md5: Md5, x: string, y: string) {
    md5(x) == md5(y) ==> x == y
  }

  ghost predicate CollisionFree(md5: Md5, hashed: set<string>) {
    forall x, y {:trigger Apart(md5, x, y)} :: x in hashed && y in hashed ==> Apart(md5, x, y)
  }

  ghost predicate LinkIn(md5: Md5, s: string, i: int, hashed: set<string>) {
    Chain(md5, s, i) in hashed
  }

  /** The strings MD5 is applied to while computing the first n links are among the given ones. */
  ghost predicate LinksIn(md5: Md5, s: string, n: int, hashed: set<string>) {
    forall i {:trigger LinkIn(md5, s, i, hashed)} :: 0 <= i < n ==> LinkIn(md5, s, i, hashed)
  }

  /** Two chains that meet after n links started at the same string. */
  lemma {:induction false} ChainInjective(md5: Md5, s: string, t: string, n: int, hashed: set<string>)
    requires n >= 0
    requires CollisionFree(md5, hashed) && LinksIn(md5, s, n, hashed) && LinksIn(md5, t, n, hashed)
    requires Chain(md5, s, n) == Chain(md5, t, n)
    ensures s == t
  {
    if n > 0 {
      var x, y := Chain(md5, s, n - 1), Chain(md5, t, n - 1);
      HexInjective(md5(x), md5(y));
      assert LinkIn(md5, s, n - 1, hashed) && LinkIn(md5, t, n - 1, hashed);
      assert Apart(md5, x, y);
      ChainInjective(md5, s, t, n - 1, hashed);
    }
  }

  lemma TailLinks(md5: Md5, s: string, skip: int, n: int, hashed: set<string>)
    requires skip >= 0 && n >= 0 && LinksIn(md5, s, skip + n, hashed)
    ensures LinksIn(md5, Chain(md5, s, skip), n, hashed)
  {
    forall i | 0 <= i < n
      ensures LinkIn(md5, Chain(md5, s, skip), i, hashed)
    {
      ChainAdditive(md5, s, skip, i);
      assert LinkIn(md5, s, skip + i, hashed);
    }
  }

  lemma MeetsAtTail(md5: Md5, s: string, t: string, i: int, j: int, hashed: set<string>)
    requires 0 <= i <= j
    requires CollisionFree(md5, hashed) && LinksIn(md5, s, i, hashed) && LinksIn(md5, t, j, hashed)
    requires Chain(md5, s, i) == Chain(md5, t, j)
    ensures s == Chain(md5, t, j - i)
  {
    ChainAdditive(md5, t, j - i, i);
    TailLinks(md5, t, j - i, i, hashed);
    ChainInjective(md5, s, Chain(md5, t, j - i), i, hashed);
  }

  lemma TailIsNoSeed(md5: Md5, s: string, t: string, d: int)
    requires d >= 0 && |s| != HEX_LENGTH && s == Chain(md5, t, d)
    ensures d == 0 && s == t
  {
    if d > 0 {
      ChainShape(md5, t, d);
    }
  }

  /** A seed that cannot be mistaken for a link is never met again, and chains of different seeds
      never meet: equal links are the same link of the same chain. */
  lemma ChainsMeet(md5: Md5, s: string, t: string, i: int, j: int, hashed: set<string>)
    requires 0 <= i && 0 <= j && |s| != HEX_LENGTH && |t| != HEX_LENGTH
    requires CollisionFree(md5, hashed) && LinksIn(md5, s, i, hashed) && LinksIn(md5, t, j, hashed)
    requires Chain(md5, s, i) == Chain(md5, t, j)
    ensures i == j && s == t
  {
    if i <= j {
      MeetsAtTail(md5, s, t, i, j, hashed);
      TailIsNoSeed(md5, s, t, j - i);
    } else {
      MeetsAtTail(md5, t, s, j, i, hashed);
      TailIsNoSeed(md5, t, s, i - j);
    }
  }
}
