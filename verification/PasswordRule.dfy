/** The password rule the client applies before registration and password change. */
module PasswordRule {
  const MIN_LENGTH := 8
  const MAX_LENGTH := 20

  // The kinds as the code tests them: 'upper' runs on to the character before 'a'.
  predicate Lower(c: char) { 'a' <= c <= 'z' }
  predicate UpperRange(c: char) { 'A' <= c < 'a' }
  predicate Digit(c: char) { '0' <= c <= '9' }
  predicate Allowed(c: char) { Lower(c) || UpperRange(c) || Digit(c) }

  predicate HasLower(s: string) { exists i :: 0 <= i < |s| && Lower(s[i]) }
  predicate HasUpperRange(s: string) { exists i :: 0 <= i < |s| && UpperRange(s[i]) }
  predicate HasDigit(s: string) { exists i :: 0 <= i < |s| && Digit(s[i]) }
  predicate AllAllowed(s: string) { forall i :: 0 <= i < |s| ==> Allowed(s[i]) }

  /** A prefix of permitted characters that shows all three kinds settles the question. */
  predicate Settles(s: string) {
    AllAllowed(s) && HasLower(s) && HasUpperRange(s) && HasDigit(s)
  }

  ghost predicate Acceptable(password: string) {
    MIN_LENGTH <= |password| <= MAX_LENGTH &&
    exists n :: 0 <= n <= |password| && Settles(password[..n])
  }

  lemma ExtendPrefix(s: string, i: int)
    requires 0 <= i < |s|
    ensures HasLower(s[..i + 1]) <==> HasLower(s[..i]) || Lower(s[i])
    ensures HasUpperRange(s[..i + 1]) <==> HasUpperRange(s[..i]) || UpperRange(s[i])
    ensures HasDigit(s[..i + 1]) <==> HasDigit(s[..i]) || Digit(s[i])
    ensures AllAllowed(s[..i + 1]) <==> AllAllowed(s[..i]) && Allowed(s[i])
  {
    var longer := s[..i + 1];
    assert longer[i] == s[i];
    assert forall k :: 0 <= k < i ==> longer[k] == s[..i][k];
  }

  method CheckPassword(password: string) returns (ok: bool)
    ensures ok <==> Acceptable(password)
  {
    var upper, lower, num := false, false, false;
    var length := |password|;
    if length > MAX_LENGTH || length < MIN_LENGTH {
      return false;
    }
    var i := 0;
    while i < |password|
      invariant 0 <= i <= |password|
      invariant AllAllowed(password[..i])
      invariant lower <==> HasLower(password[..i])
      invariant upper <==> HasUpperRange(password[..i])
      invariant num <==> HasDigit(password[..i])
      invariant forall n :: 0 <= n <= i ==> !Settles(password[..n])
    {
      var chr := password[i];
      ExtendPrefix(password, i);
      if 'a' <= chr <= 'z' {
        lower := true;
      } else if 'A' <= chr <= 'z' {
        upper := true;
      } else if '0' <= chr <= '9' {
        num := true;
      } else {
        forall n | 0 <= n <= |password| ensures !Settles(password[..n]) {
          if n > i {
            assert password[..n][i] == chr;
          }
        }
        return false;
      }
      if lower && upper && num {
        assert Settles(password[..i + 1]);
        return true;
      }
      i := i + 1;
    }
    return false;
  }

  /** The same for one place, in characters alone: everything before it is a digit or lies between 'A' and 'z',
      with a small letter, a character from 'A' to '`', and a digit among it. */
  predicate SettledAt(s: string, n: int)
    requires 0 <= n <= |s|
  {
    && (forall i :: 0 <= i < n ==> '0' <= s[i] <= '9' || 'A' <= s[i] <= 'z')
    && (exists i :: 0 <= i < n && 'a' <= s[i] <= 'z')
    && (exists i :: 0 <= i < n && 'A' <= s[i] <= '`')
    && (exists i :: 0 <= i < n && '0' <= s[i] <= '9')
  }

  lemma KindsMean(s: string, n: int)
    requires 0 <= n <= |s|
    ensures AllAllowed(s[..n]) <==> forall i :: 0 <= i < n ==> '0' <= s[i] <= '9' || 'A' <= s[i] <= 'z'
    ensures HasLower(s[..n]) <==> exists i :: 0 <= i < n && 'a' <= s[i] <= 'z'
    ensures HasUpperRange(s[..n]) <==> exists i :: 0 <= i < n && 'A' <= s[i] <= '`'
    ensures HasDigit(s[..n]) <==> exists i :: 0 <= i < n && '0' <= s[i] <= '9'
  {
    var p := s[..n];
    assert forall i :: 0 <= i < n ==> p[i] == s[i];
  }

  lemma AcceptableMeans(s: string)
    ensures Acceptable(s) <==> 8 <= |s| <= 20 && exists n :: 0 <= n <= |s| && SettledAt(s, n)
  {
    forall n | 0 <= n <= |s| ensures Settles(s[..n]) <==> SettledAt(s, n) {
      KindsMean(s, n);
    }
  }

  // ----- against the rule shown to the user -----

  predicate Letter(c: char) { 'a' <= c <= 'z' || 'A' <= c <= 'Z' }
  predicate LettersAndDigits(s: string) { forall i :: 0 <= i < |s| ==> Letter(s[i]) || Digit(s[i]) }

  /** The message: upper and lower case letters and digits, no symbols, length 8 to 20. */
  predicate MeetsMessage(s: string) {
    MIN_LENGTH <= |s| <= MAX_LENGTH && LettersAndDigits(s) &&
    HasLower(s) && HasDigit(s) && exists i :: 0 <= i < |s| && 'A' <= s[i] <= 'Z'
  }

  /** The code enforces the message exactly on strings of letters and digits. */
  lemma MessageIff(s: string)
    ensures MeetsMessage(s) <==> Acceptable(s) && LettersAndDigits(s)
  {
    assert s[..|s|] == s;
    if MeetsMessage(s) {
      assert forall i :: 0 <= i < |s| && 'A' <= s[i] <= 'Z' ==> UpperRange(s[i]);
      assert Settles(s[..|s|]);
    }
    if Acceptable(s) && LettersAndDigits(s) {
      var n :| 0 <= n <= |s| && Settles(s[..n]);
      var l :| 0 <= l < n && Lower(s[..n][l]);
      var u :| 0 <= u < n && UpperRange(s[..n][u]);
      var d :| 0 <= d < n && Digit(s[..n][d]);
      assert Lower(s[l]) && Digit(s[d]) && 'A' <= s[u] <= 'Z';
    }
  }

  /** Elsewhere it is more lenient: the scan stops at the first prefix showing all three kinds,
      and a backquote counts as upper case. */
  lemma MoreLenientThanMessage()
    ensures Acceptable("aA1?????") && !MeetsMessage("aA1?????")
    ensures Acceptable("a`111111") && !MeetsMessage("a`111111")
  {
    var p := "aA1?????"[..3];
    assert Lower(p[0]) && UpperRange(p[1]) && Digit(p[2]);
    assert Settles(p);
    assert !Letter("aA1?????"[3]) && !Digit("aA1?????"[3]);
    var q := "a`111111"[..3];
    assert Lower(q[0]) && UpperRange(q[1]) && Digit(q[2]);
    assert Settles(q);
    assert !Letter("a`111111"[1]) && !Digit("a`111111"[1]);
  }
}
