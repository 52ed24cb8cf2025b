/** Sending the log file in blocks of 1024 bytes and writing it on the client. */
module LogTransfer {
  import opened Bytes

  const BLOCK := 1024
  const NEWLINE: Byte := 10
  const RETURN: Byte := 13
  const END_OF_TEXT: Byte := 26

  /** The count both ends compute. */
  function Blocks(length: nat): nat {
    if length % BLOCK != 0 then length / BLOCK + 1 else length / BLOCK
  }

  lemma BlocksIsLeast(length: nat, n: nat)
    ensures BLOCK * n >= length <==> n >= Blocks(length)
  {
  }

  // ----- the server -----

  function UntilNul(s: seq<Byte>): (r: seq<Byte>)
    ensures |r| <= |s| && r == s[..|r|]
    ensures forall i :: 0 <= i < |r| ==> r[i] != 0
    ensures |r| < |s| ==> s[|r|] == 0
  {
    if s == [] || s[0] == 0 then [] else [s[0]] + UntilNul(s[1..])
  }

  method Strlen(buff: array<Byte>) returns (n: nat)
    requires exists k :: 0 <= k < buff.Length && buff[k] == 0
    ensures n < buff.Length && buff[n] == 0 && forall i :: 0 <= i < n ==> buff[i] != 0
  {
    n := 0;
    while buff[n] != 0
      invariant n < buff.Length
      invariant forall i :: 0 <= i < n ==> buff[i] != 0
      decreases buff.Length - n
    {
      n := n + 1;
    }
  }

  function FirstBlock(log: seq<Byte>): seq<Byte> {
    if |log| <= BLOCK then log else log[..BLOCK]
  }

  function Rest(log: seq<Byte>): seq<Byte> {
    if |log| <= BLOCK then [] else log[BLOCK..]
  }

  /** What is sent for each block: the length is taken with strlen. */
  function Pieces(log: seq<Byte>): seq<seq<Byte>>
    decreases |log|
  {
    if log == [] then [] else [UntilNul(FirstBlock(log))] + Pieces(Rest(log))
  }

  lemma {:induction false} PiecesCount(log: seq<Byte>)
    ensures |Pieces(log)| == Blocks(|log|)
    decreases |log|
  {
    if log != [] {
      PiecesCount(Rest(log));
    }
  }

  function Lesser(a: nat, b: nat): nat {
    if a <= b then a else b
  }

  lemma BlockOfRest(log: seq<Byte>, k: nat)
    requires 0 < k && 1024 * k < |log|
    ensures 1024 * (k - 1) < |Rest(log)| < |log|
    ensures Rest(log)[1024 * (k - 1)..Lesser(1024 * k, |Rest(log)|)] == log[1024 * k..Lesser(1024 * (k + 1), |log|)]
  {
  }

  /** Piece k comes from bytes 1024 * k onward, 1024 of them or as many as there are. */
  lemma {:induction false} PieceAt(log: seq<Byte>, k: nat)
    requires 1024 * k < |log|
    ensures k < |Pieces(log)|
    ensures Pieces(log)[k] == UntilNul(log[1024 * k..Lesser(1024 * (k + 1), |log|)])
    decreases k
  {
    if k == 0 {
      assert FirstBlock(log) == log[0..Lesser(1024, |log|)];
    } else {
      BlockOfRest(log, k);
      PieceAt(Rest(log), k - 1);
      assert Pieces(log)[k] == Pieces(Rest(log))[k - 1];
    }
  }

  /** A block read into a zeroed buffer: strlen finds the first NUL of the block or its end. */
  lemma StrlenOfBlock(buff: seq<Byte>, block: seq<Byte>, n: nat)
    requires |block| <= BLOCK && |buff| == BLOCK + 1 && buff == block + seq(BLOCK + 1 - |block|, _ => 0)
    requires n < |buff| && buff[n] == 0 && forall i :: 0 <= i < n ==> buff[i] != 0
    ensures buff[..n] == UntilNul(block)
  {
    var m := |UntilNul(block)|;
    assert forall i :: 0 <= i < m ==> buff[i] == block[i] == UntilNul(block)[i];
    assert buff[m] == 0;
    assert n == m;
  }

  method SendBlock(block: seq<Byte>) returns (piece: seq<Byte>)
    requires |block| <= BLOCK
    ensures piece == UntilNul(block)
  {
    var buff := new Byte[BLOCK + 1](k => if 0 <= k < |block| then block[k] else 0);
    assert buff[..] == block + seq(BLOCK + 1 - |block|, _ => 0);
    assert buff[BLOCK] == 0;
    var fileBlockLength := Strlen(buff);
    StrlenOfBlock(buff[..], block, fileBlockLength);
    piece := buff[..fileBlockLength];
  }

  method SendLog(log: seq<Byte>) returns (length: nat, totalNo: nat, sent: seq<seq<Byte>>)
    ensures length == |log| && totalNo == Blocks(|log|) && sent == Pieces(log)
  {
    length := |log|;
    totalNo := if length % BLOCK != 0 then length / BLOCK + 1 else length / BLOCK;
    sent := [];
    var rest := log;
    var i := 0;
    PiecesCount(log);
    while i < totalNo
      invariant 0 <= i <= totalNo
      invariant sent + Pieces(rest) == Pieces(log) && |Pieces(rest)| == totalNo - i
    {
      PiecesCount(rest);
      var piece := SendBlock(FirstBlock(rest));
      sent := sent + [piece];
      rest := Rest(rest);
      i := i + 1;
    }
  }

  // ----- the client -----

  /** fwrite to a stream opened with "w" on Windows. */
  function TextMode(s: seq<Byte>): seq<Byte> {
    if s == [] then [] else (if s[0] == NEWLINE then [RETURN, NEWLINE] else [s[0]]) + TextMode(s[1..])
  }

  function Concat(pieces: seq<seq<Byte>>): seq<Byte> {
    if pieces == [] then [] else pieces[0] + Concat(pieces[1..])
  }

  lemma {:induction false} TextModeAppend(a: seq<Byte>, b: seq<Byte>)
    ensures TextMode(a + b) == TextMode(a) + TextMode(b)
  {
    if a == [] {
      assert a + b == b;
    } else {
      assert (a + b)[1..] == a[1..] + b;
      TextModeAppend(a[1..], b);
    }
  }

  /** The file is built byte by byte: a newline becomes two bytes, every other byte is written as it is. */
  lemma TextModeOfOne(b: Byte)
    ensures TextMode([]) == []
    ensures TextMode([b]) == if b == 10 then [13, 10] else [b]
  {
    assert [b][1..] == [];
  }

  lemma {:induction false} ConcatAppend(pieces: seq<seq<Byte>>, last: seq<Byte>)
    ensures Concat([]) == [] && Concat(pieces + [last]) == Concat(pieces) + last
  {
    if pieces == [] {
      assert [last][1..] == [] && [] + last == last;
    } else {
      assert (pieces + [last])[0] == pieces[0] && (pieces + [last])[1..] == pieces[1..] + [last];
      ConcatAppend(pieces[1..], last);
    }
  }

  /** ready is false, and nothing is written, when the block count does not match the length. */
  method ReceiveLog(length: nat, totalNo: nat, received: seq<seq<Byte>>) returns (ready: bool, file: seq<Byte>)
    requires |received| == totalNo
    ensures ready <==> totalNo == Blocks(length)
    ensures file == if ready then TextMode(Concat(received)) else []
  {
    file := [];
    var expectTotalNo := if length % BLOCK != 0 then length / BLOCK + 1 else length / BLOCK;
    if expectTotalNo != totalNo {
      return false, [];
    }
    var i := 0;
    assert received[0..] == received;
    while i < totalNo
      invariant 0 <= i <= totalNo
      invariant file + TextMode(Concat(received[i..])) == TextMode(Concat(received))
    {
      TextModeAppend(received[i], Concat(received[i..][1..]));
      assert received[i..][1..] == received[i + 1..];
      file := file + TextMode(received[i]);
      i := i + 1;
    }
    assert received[i..] == [];
    return true, file;
  }

  /** Server and client together, each piece arriving as sent. */
  method TransferLog(log: seq<Byte>) returns (ready: bool, file: seq<Byte>)
    ensures ready && file == TextMode(Concat(Pieces(log)))
  {
    var length, totalNo, sent := SendLog(log);
    PiecesCount(log);
    ready, file := ReceiveLog(length, totalNo, sent);
  }

  // ----- what arrives -----

  lemma {:induction false} DeliveredAtMost(log: seq<Byte>)
    ensures |Concat(Pieces(log))| <= |log|
    decreases |log|
  {
    if log != [] {
      DeliveredAtMost(Rest(log));
      assert Pieces(log)[1..] == Pieces(Rest(log));
    }
  }

  lemma SameFront(front: seq<Byte>, a: seq<Byte>, b: seq<Byte>)
    ensures front + a == front + b <==> a == b
  {
    assert (front + a)[|front|..] == a && (front + b)[|front|..] == b;
  }

  lemma CutIff(s: seq<Byte>)
    ensures if 0 in s then |UntilNul(s)| < |s| else UntilNul(s) == s
  {
  }

  /** Every byte arrives, once and in order, exactly when the log holds no NUL byte; each block is
      otherwise cut at its first one. */
  lemma {:induction false} DeliveredIff(log: seq<Byte>)
    ensures Concat(Pieces(log)) == log <==> 0 !in log
    decreases |log|
  {
    if log != [] {
      var first, rest := FirstBlock(log), Rest(log);
      assert log == first + rest;
      assert Pieces(log)[1..] == Pieces(rest);
      DeliveredIff(rest);
      DeliveredAtMost(rest);
      assert Concat(Pieces(log)) == UntilNul(first) + Concat(Pieces(rest));
      CutIff(first);
      if 0 !in first {
        SameFront(first, Concat(Pieces(rest)), rest);
      }
    }
  }

  lemma {:induction false} TextModeLength(s: seq<Byte>)
    ensures |TextMode(s)| >= |s|
    ensures |TextMode(s)| == |s| <==> NEWLINE !in s
    ensures NEWLINE !in s ==> TextMode(s) == s
  {
    if s != [] {
      TextModeLength(s[1..]);
      assert NEWLINE in s <==> s[0] == NEWLINE || NEWLINE in s[1..];
    }
  }

  /** Reading a text-mode file: a return before a newline is dropped, and byte 26 ends the text. */
  function ReadText(s: seq<Byte>): seq<Byte> {
    if s == [] || s[0] == END_OF_TEXT then []
    else if |s| >= 2 && s[0] == RETURN && s[1] == NEWLINE then [NEWLINE] + ReadText(s[2..])
    else [s[0]] + ReadText(s[1..])
  }

  /** What a text reader sees of these bytes. */
  function UntilEnd(s: seq<Byte>): (r: seq<Byte>)
    ensures |r| <= |s| && r == s[..|r|]
    ensures END_OF_TEXT !in r && (|r| < |s| ==> s[|r|] == END_OF_TEXT)
  {
    if s == [] || s[0] == END_OF_TEXT then [] else [s[0]] + UntilEnd(s[1..])
  }

  /** Read as text, the client's file is what was delivered up to the first byte 26, returns and newlines
      included. */
  lemma {:induction false} TextRoundTrip(s: seq<Byte>)
    ensures ReadText(TextMode(s)) == UntilEnd(s)
  {
    if s != [] {
      TextRoundTrip(s[1..]);
      var t := TextMode(s[1..]);
      assert t != [] ==> t[0] != NEWLINE;
      if s[0] == NEWLINE {
        assert TextMode(s)[2..] == t;
      } else {
        assert TextMode(s)[1..] == t;
      }
    }
  }

  lemma {:induction false} NoNulDelivered(log: seq<Byte>)
    ensures 0 !in Concat(Pieces(log))
    decreases |log|
  {
    if log != [] {
      NoNulDelivered(Rest(log));
      assert Pieces(log)[1..] == Pieces(Rest(log));
    }
  }

  lemma {:induction false} NoNulInText(s: seq<Byte>)
    requires 0 !in s
    ensures 0 !in TextMode(s)
  {
    if s != [] {
      NoNulInText(s[1..]);
    }
  }

  /** Read as text the file is the log exactly when the log has neither a NUL nor a byte 26; byte for byte it is
      the log exactly when the log has neither a NUL nor a newline. */
  lemma FileIff(log: seq<Byte>)
    ensures ReadText(TextMode(Concat(Pieces(log)))) == log <==> 0 !in log && END_OF_TEXT !in log
    ensures TextMode(Concat(Pieces(log))) == log <==> 0 !in log && NEWLINE !in log
  {
    var delivered := Concat(Pieces(log));
    DeliveredIff(log);
    DeliveredAtMost(log);
    TextRoundTrip(delivered);
    TextModeLength(delivered);
    NoNulDelivered(log);
    NoNulInText(delivered);
    if UntilEnd(delivered) == log {
      assert delivered == log;
    }
  }
}
