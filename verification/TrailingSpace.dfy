/** Two fast ways to find where trailing spaces begin, and the byte-at-a-time loop they must agree with.
    Pointers are addresses; a buffer lies at addresses ptr to ptr + |buf|, and every read is checked. */
module TrailingSpace {
  import opened Bytes
  import opened ByteOrder

  const SPACE: Byte := 0x20
  const SPACE_INT4 := 0x2020_2020
  const SPACE_INT8 := 0x2020_2020_2020_2020

  predicate AllSpaces(bytes: seq<Byte>) {
    forall k :: 0 <= k < |bytes| ==> bytes[k] == SPACE
  }

  /** Only spaces from offset e on. */
  predicate SpacesFrom(buf: seq<Byte>, e: nat) {
    forall k :: e <= k < |buf| ==> buf[k] == SPACE
  }

  /** The answer wanted: the least offset from which there are only spaces. */
  ghost predicate IsTrim(buf: seq<Byte>, e: nat) {
    e <= |buf| && SpacesFrom(buf, e) && forall d: nat :: d < e ==> !SpacesFrom(buf, d)
  }

  /** In bytes: only 0x20 from the end on, and another byte before it unless it is the start. */
  lemma TrimIs(buf: seq<Byte>, e: nat)
    ensures IsTrim(buf, e)
      <==> e <= |buf| && (forall k :: e <= k < |buf| ==> buf[k] == 0x20) && (e > 0 ==> buf[e - 1] != 0x20)
  {
    if e <= |buf| && SpacesFrom(buf, e) && e > 0 {
      if buf[e - 1] == SPACE {
        assert SpacesFrom(buf, e - 1);
      } else {
        forall d: nat | d < e ensures !SpacesFrom(buf, d) {
          assert d <= e - 1 < |buf|;
        }
      }
    }
  }

  lemma TrimUnique(buf: seq<Byte>, d: nat, e: nat)
    requires IsTrim(buf, d) && IsTrim(buf, e)
    ensures d == e
  {
  }

  /** The last loop of both versions, and on its own the slow version. */
  method SkipBytes(buf: seq<Byte>, ptr: nat, from: nat) returns (end: nat)
    requires ptr <= from <= ptr + |buf| && SpacesFrom(buf, from - ptr)
    ensures ptr <= end && IsTrim(buf, end - ptr)
  {
    end := from;
    while end > ptr && buf[end - 1 - ptr] == SPACE
      invariant ptr <= end <= ptr + |buf|
      invariant SpacesFrom(buf, end - ptr)
    {
      end := end - 1;
    }
    if end > ptr {
      assert buf[end - 1 - ptr] != SPACE;
    }
  }

  // ----- a packed word is the space word exactly when every byte is a space -----

  function Spaces(n: nat): (bytes: seq<Byte>)
    ensures |bytes| == n
  {
    seq(n, _ => SPACE)
  }

  lemma SpaceWords()
    ensures LeValue(Spaces(4)) == SPACE_INT4 && LeValue(Spaces(8)) == SPACE_INT8
  {
    LeOfFour(Spaces(4));
    LeSplitFour(Spaces(8));
    assert Spaces(8)[..4] == Spaces(4) && Spaces(8)[4..] == Spaces(4);
  }

  lemma AllSpacesIs(bytes: seq<Byte>)
    ensures AllSpaces(bytes) <==> bytes == Spaces(|bytes|)
  {
  }

  lemma PackedIffSpaces(bytes: seq<Byte>)
    ensures LeValue(bytes) == LeValue(Spaces(|bytes|)) <==> AllSpaces(bytes)
  {
    AllSpacesIs(bytes);
    if LeValue(bytes) == LeValue(Spaces(|bytes|)) {
      SameValueSameBytes(bytes, Spaces(|bytes|));
    }
  }

  lemma ReverseSpaces(bytes: seq<Byte>)
    ensures AllSpaces(Reverse(bytes)) <==> AllSpaces(bytes)
  {
    if AllSpaces(Reverse(bytes)) {
      forall k | 0 <= k < |bytes| ensures bytes[k] == SPACE {
        assert Reverse(bytes)[|bytes| - 1 - k] == SPACE;
      }
    }
  }

  /** The word read from the aligned middle, on the big-endian machine that version is for. */
  function Word(buf: seq<Byte>, at: nat, size: nat): int
    requires at + size <= |buf|
  {
    BeValue(buf[at..at + size])
  }

  predicate WordSize(size: nat) {
    size == 4 || size == 8
  }

  lemma WordIffSpaces(buf: seq<Byte>, at: nat, size: nat)
    requires WordSize(size) && at + size <= |buf|
    ensures Word(buf, at, size) == (if size == 4 then SPACE_INT4 else SPACE_INT8)
      <==> AllSpaces(buf[at..at + size])
  {
    SpaceWords();
    PackedIffSpaces(Reverse(buf[at..at + size]));
    ReverseSpaces(buf[at..at + size]);
  }

  lemma BlockIffSpaces(buf: seq<Byte>, at: nat)
    requires at + 8 <= |buf|
    ensures Uint8korr(buf[at..]) == SPACE_INT8 <==> AllSpaces(buf[at..at + 8])
  {
    SpaceWords();
    KorrIsLe(buf[at..], 8);
    assert buf[at..][..8] == buf[at..at + 8];
    PackedIffSpaces(buf[at..at + 8]);
  }

  lemma SpacesGrow(buf: seq<Byte>, at: nat, size: nat)
    requires at + size <= |buf| && SpacesFrom(buf, at + size) && AllSpaces(buf[at..at + size])
    ensures SpacesFrom(buf, at)
  {
    forall k | at <= k < |buf| ensures buf[k] == SPACE {
      if k < at + size {
        assert buf[at..at + size][k - at] == SPACE;
      }
    }
  }

  // ----- the two fast versions -----

  function AlignDown(a: nat, size: nat): (r: nat)
    requires WordSize(size)
    ensures r <= a < r + size && r % size == 0
  {
    if size == 4 then a / 4 * 4 else a / 8 * 8
  }

  /** The addition is done in 64 bits. */
  function AlignUp(a: nat, size: nat): (r: nat)
    requires WordSize(size) && a + size <= TWO64
    ensures a <= r < a + size && r % size == 0
  {
    AlignDown((a + size - 1) % TWO64, size)
  }

  lemma AlignedStep(low: nat, high: nat, size: nat)
    requires WordSize(size) && low % size == 0 && high % size == 0 && low < high
    ensures low + size <= high && (high - size) % size == 0
  {
    if size == 4 {
    } else {
    }
  }

  method SkipWords(buf: seq<Byte>, ptr: nat, size: nat, startWords: nat, from: nat) returns (end: nat)
    requires WordSize(size) && startWords % size == 0 && from % size == 0
    requires ptr <= startWords <= from <= ptr + |buf| && SpacesFrom(buf, from - ptr)
    ensures startWords <= end <= from && SpacesFrom(buf, end - ptr)
  {
    var spaceInt := if size == 4 then SPACE_INT4 else SPACE_INT8;
    end := from;
    while end > startWords
      invariant startWords <= end <= from && end % size == 0
      invariant SpacesFrom(buf, end - ptr)
    {
      AlignedStep(startWords, end, size);
      if Word(buf, end - size - ptr, size) != spaceInt {
        break;
      }
      WordIffSpaces(buf, end - size - ptr, size);
      SpacesGrow(buf, end - size - ptr, size);
      end := end - size;
    }
  }

  /** Aligned words of SIZEOF_INT bytes in the middle, single bytes at both ends. */
  method SkipAlignedWords(buf: seq<Byte>, ptr: nat, sizeofInt: nat) returns (end: nat)
    requires WordSize(sizeofInt) && ptr + |buf| < TWO64
    ensures ptr <= end && IsTrim(buf, end - ptr)
  {
    end := ptr + |buf|;
    if |buf| > 20 {
      var endWords := AlignDown(end, sizeofInt);
      var startWords := AlignUp(ptr, sizeofInt);
      assert endWords > ptr;
      while end > endWords && buf[end - 1 - ptr] == SPACE
        invariant endWords <= end <= ptr + |buf|
        invariant SpacesFrom(buf, end - ptr)
      {
        end := end - 1;
      }
      if buf[end - 1 - ptr] == SPACE && startWords < endWords {
        end := SkipWords(buf, ptr, sizeofInt, startWords, end);
      }
    }
    end := SkipBytes(buf, ptr, end);
  }

  /** Blocks of eight bytes from the end, wherever the end lies. */
  method SkipBlocks(buf: seq<Byte>, ptr: nat) returns (end: nat)
    ensures ptr <= end && IsTrim(buf, end - ptr)
  {
    end := ptr + |buf|;
    while end - ptr >= 8
      invariant ptr <= end <= ptr + |buf|
      invariant SpacesFrom(buf, end - ptr)
    {
      if Uint8korr(buf[end - 8 - ptr..]) != SPACE_INT8 {
        break;
      }
      BlockIffSpaces(buf, end - 8 - ptr);
      SpacesGrow(buf, end - 8 - ptr, 8);
      end := end - 8;
    }
    end := SkipBytes(buf, ptr, end);
  }

  /** All three return the same end, for every buffer, start address and word size. */
  method AllAgree(buf: seq<Byte>, ptr: nat, sizeofInt: nat) returns (slow: nat, words: nat, blocks: nat)
    requires WordSize(sizeofInt) && ptr + |buf| < TWO64
    ensures slow == words == blocks
    ensures ptr <= slow && IsTrim(buf, slow - ptr)
  {
    slow := SkipBytes(buf, ptr, ptr + |buf|);
    words := SkipAlignedWords(buf, ptr, sizeofInt);
    blocks := SkipBlocks(buf, ptr);
    TrimUnique(buf, slow - ptr, words - ptr);
    TrimUnique(buf, slow - ptr, blocks - ptr);
  }
}
