/** White space, case and path normalisation, over the ASCII characters, and decimal numbers. */
module Texts {

  function LowerChar(c: char): (r: char)
    ensures if 'A' <= c <= 'Z' then 'a' <= r <= 'z' else r == c
  {
    if 'A' <= c <= 'Z' then c - 'A' + 'a' else c
  }

  function Lower(s: string): (r: string)
    ensures |r| == |s|
  {
    seq(|s|, i requires 0 <= i < |s| => LowerChar(s[i]))
  }

  const CAPITALS := "ABCDEFGHIJKLMNOPQRSTUVWXYZ"
  const SMALL := "abcdefghijklmnopqrstuvwxyz"

  /** Each capital becomes its own small letter, and every other character stays. */
  lemma LowerCharExactly(c: char)
    ensures forall i :: 0 <= i < 26 && c == CAPITALS[i] ==> LowerChar(c) == SMALL[i]
    ensures !('A' <= c <= 'Z') ==> LowerChar(c) == c
  {
  }

  /** Lower-casing and path normalisation work character by character. */
  lemma TextsAt(s: string, i: nat)
    requires i < |s|
    ensures |Lower(s)| == |s| == |NormCase(s)|
    ensures Lower(s)[i] == LowerChar(s[i])
    ensures NormCase(s)[i] == if s[i] == '/' then '\\' else LowerChar(s[i])
  {
  }

  lemma LowerTwice(s: string)
    ensures Lower(Lower(s)) == Lower(s)
  {
  }

  // --------------------------------------------------------------- stripping

  predicate Space(c: char) {
    c == ' ' || '\t' <= c <= '\r' || '\U{1C}' <= c <= '\U{1F}'
  }

  function StripLeft(s: string): string {
    if s != "" && Space(s[0]) then StripLeft(s[1..]) else s
  }

  function StripRight(s: string): string {
    if s != "" && Space(s[|s| - 1]) then StripRight(s[..|s| - 1]) else s
  }

  /** Drop the white space at both ends. */
  function Strip(s: string): string {
    StripRight(StripLeft(s))
  }

  predicate Trimmed(s: string) {
    s != "" ==> !Space(s[0]) && !Space(s[|s| - 1])
  }

  lemma {:induction false} StripLeftShape(s: string)
    ensures |StripLeft(s)| <= |s| && (StripLeft(s) != "" ==> !Space(StripLeft(s)[0]))
    ensures s != "" && !Space(s[|s| - 1]) ==> StripLeft(s) != "" && !Space(StripLeft(s)[|StripLeft(s)| - 1])
    ensures s != "" && Space(s[0]) ==> |StripLeft(s)| < |s|
  {
    if s != "" && Space(s[0]) {
      StripLeftShape(s[1..]);
    }
  }

  lemma {:induction false} StripRightShape(s: string)
    ensures StripRight(s) <= s
    ensures StripRight(s) != "" ==> !Space(StripRight(s)[|StripRight(s)| - 1])
  {
    if s != "" && Space(s[|s| - 1]) {
      StripRightShape(s[..|s| - 1]);
    }
  }

  lemma StripTrims(s: string)
    ensures Trimmed(Strip(s)) && |Strip(s)| <= |s|
  {
    StripLeftShape(s);
    StripRightShape(StripLeft(s));
  }

  lemma {:induction false} StripLeftIsEnd(s: string)
    ensures var k := |s| - |StripLeft(s)|;
            0 <= k && StripLeft(s) == s[k..] && forall i :: 0 <= i < k ==> Space(s[i])
  {
    if s != "" && Space(s[0]) {
      StripLeftIsEnd(s[1..]);
      var k := |s| - |StripLeft(s)|;
      forall i | 0 <= i < k
        ensures Space(s[i])
      {
        assert i > 0 ==> s[i] == s[1..][i - 1];
      }
    }
  }

  lemma {:induction false} StripRightIsFront(s: string)
    ensures var n := |StripRight(s)|;
            n <= |s| && StripRight(s) == s[..n] && forall i :: n <= i < |s| ==> Space(s[i])
  {
    if s != "" && Space(s[|s| - 1]) {
      var t := s[..|s| - 1];
      StripRightIsFront(t);
      forall i | |StripRight(s)| <= i < |s|
        ensures Space(s[i])
      {
        assert i < |t| ==> s[i] == t[i];
      }
    }
  }

  /** The white space at both ends goes, and nothing else: a space, the five control characters from tab to carriage
      return, and the four separators from 28 to 31. */
  lemma StripExactly(s: string)
    ensures exists i, j :: && 0 <= i <= j <= |s| && Strip(s) == s[i..j]
                           && (forall k :: 0 <= k < i || j <= k < |s| ==> Space(s[k]))
                           && (i < j ==> !Space(s[i]) && !Space(s[j - 1]))
    ensures forall c: char :: Space(c) <==> c as int in {9, 10, 11, 12, 13, 28, 29, 30, 31, 32}
  {
    StripLeftIsEnd(s);
    StripRightIsFront(StripLeft(s));
    StripTrims(s);
    var i := |s| - |StripLeft(s)|;
    var j := i + |Strip(s)|;
    assert Strip(s) == s[i..j];
    forall k | j <= k < |s|
      ensures Space(s[k])
    {
      assert s[k] == StripLeft(s)[k - i];
    }
  }

  lemma TrimmedStays(s: string)
    requires Trimmed(s)
    ensures Strip(s) == s
  {
  }

  lemma LeadingSpaceGoes(s: string)
    requires s != "" && Space(s[0])
    ensures |Strip(s)| < |s|
  {
    StripLeftShape(s);
    StripRightShape(StripLeft(s));
  }

  // -------------------------------------------------------- path normalisation

  function NormCaseChar(c: char): (r: char)
    ensures r != '/'
  {
    if c == '/' then '\\' else LowerChar(c)
  }

  function NormCase(path: string): (r: string)
    ensures |r| == |path|
  {
    seq(|path|, i requires 0 <= i < |path| => NormCaseChar(path[i]))
  }

  lemma NormCaseTwice(path: string)
    ensures NormCase(NormCase(path)) == NormCase(path)
  {
  }

  lemma NormCaseKeepsTrim(path: string)
    requires Trimmed(path)
    ensures Trimmed(NormCase(path))
  {
  }

  // ------------------------------------------------------------------ numbers

  function Digit(d: int): char
    requires 0 <= d < 10
  {
    '0' + d as char
  }

  /** A decimal number: an optional minus sign and digits. */
  function Decimal(n: int): string
    decreases n < 0, if n < 0 then -n else n
  {
    if n < 0 then "-" + Decimal(-n)
    else if n < 10 then [Digit(n)]
    else Decimal(n / 10) + [Digit(n % 10)]
  }

  function DigitValue(c: char): int {
    c as int - '0' as int
  }

  /** The number that a string of digits stands for. */
  function Read(digits: string): int {
    if digits == "" then 0 else 10 * Read(digits[..|digits| - 1]) + DigitValue(digits[|digits| - 1])
  }

  predicate Digits(s: string) {
    s != "" && forall i :: 0 <= i < |s| ==> '0' <= s[i] <= '9'
  }

  /** A natural number is printed as digits that read back as it, without a leading zero. */
  lemma {:induction false} DecimalReadsBack(n: nat)
    ensures Digits(Decimal(n)) && Read(Decimal(n)) == n
    ensures 0 < n ==> Decimal(n)[0] != '0'
  {
    if n < 10 {
      assert Decimal(n)[..0] == "";
    } else {
      DecimalReadsBack(n / 10);
      assert Decimal(n)[..|Decimal(n)| - 1] == Decimal(n / 10);
    }
  }

  /** A negative one as a minus sign and its absolute value. */
  lemma NegativeDecimal(n: int)
    requires n < 0
    ensures Decimal(n) == "-" + Decimal(-n)
  {
  }
}
