/** The string routines of Go's standard library that the version code relies on, over ASCII text. */
module Text {
  /** The largest int64, at which Go's strconv.Atoi saturates when it reports a range error. */
  const MAX_INT: nat := 0x7FFF_FFFF_FFFF_FFFF

  predicate IsDigit(c: char) {
    '0' <= c <= '9'
  }

  predicate IsSpace(c: char) {
    c in {'\t', '\n', 11 as char, 12 as char, '\r', ' '}
  }

  predicate AllDigits(s: string) {
    forall i | 0 <= i < |s| :: IsDigit(s[i])
  }

  function TrimRight(s: string): string {
    if s != "" && IsSpace(s[|s| - 1]) then TrimRight(s[..|s| - 1]) else s
  }

  function TrimSpace(s: string): string {
    if s != "" && IsSpace(s[0]) then TrimSpace(s[1..]) else TrimRight(s)
  }

  lemma {:induction false} TrimRightEnds(s: string)
    ensures TrimRight(s) <= s
    ensures TrimRight(s) != "" ==> !IsSpace(TrimRight(s)[|TrimRight(s)| - 1])
  {
    if s != "" && IsSpace(s[|s| - 1]) {
      TrimRightEnds(s[..|s| - 1]);
    }
  }

  /** A trimmed string neither starts nor ends with white space. */
  lemma {:induction false} TrimSpaceEnds(s: string)
    ensures TrimSpace(s) != "" ==> !IsSpace(TrimSpace(s)[0]) && !IsSpace(TrimSpace(s)[|TrimSpace(s)| - 1])
  {
    if s != "" && IsSpace(s[0]) {
      TrimSpaceEnds(s[1..]);
    } else {
      TrimRightEnds(s);
    }
  }

  /** The leading digits, what the greedy pattern \d+ consumes, and the rest. */
  function DigitSpan(s: string): (string, string) {
    if s != "" && IsDigit(s[0]) then
      var (digits, rest) := DigitSpan(s[1..]);
      ([s[0]] + digits, rest)
    else
      ("", s)
  }

  lemma {:induction false} DigitSpanSplits(s: string)
    ensures DigitSpan(s).0 + DigitSpan(s).1 == s && AllDigits(DigitSpan(s).0)
  {
    if s != "" && IsDigit(s[0]) {
      DigitSpanSplits(s[1..]);
    }
  }

  lemma {:induction false} DigitSpanStops(digits: string, rest: string)
    requires AllDigits(digits)
    requires rest == "" || !IsDigit(rest[0])
    ensures DigitSpan(digits + rest) == (digits, rest)
  {
    if digits == "" {
      assert digits + rest == rest;
    } else {
      assert (digits + rest)[1..] == digits[1..] + rest;
      DigitSpanStops(digits[1..], rest);
      assert [digits[0]] + digits[1..] == digits;
    }
  }

  function DigitValue(c: char): nat {
    if IsDigit(c) then c as int - '0' as int else 0
  }

  /** The decimal value of a digit string. */
  function Value(digits: string): nat {
    if digits == "" then 0
    else 10 * Value(digits[..|digits| - 1]) + DigitValue(digits[|digits| - 1])
  }

  /** strconv.Atoi with its error dropped: the value, saturated at the largest int. */
  function Atoi(digits: string): (n: nat)
    ensures n <= MAX_INT
  {
    if Value(digits) <= MAX_INT then Value(digits) else MAX_INT
  }

  function Itoa(n: nat): string {
    var last := [('0' as int + n % 10) as char];
    if n < 10 then last else Itoa(n / 10) + last
  }

  /** Printing a number and reading it back gives the number. */
  lemma {:induction false} AtoiItoa(n: nat)
    ensures Itoa(n) != "" && AllDigits(Itoa(n))
    ensures Value(Itoa(n)) == n
  {
    if n >= 10 {
      AtoiItoa(n / 10);
      assert Itoa(n)[..|Itoa(n)| - 1] == Itoa(n / 10);
    } else {
      assert Itoa(n)[..0] == "";
    }
  }

  function ToLower(s: string): (r: string)
    ensures |r| == |s|
  {
    seq(|s|, i requires 0 <= i < |s| => if 'A' <= s[i] <= 'Z' then (s[i] as int + 32) as char else s[i])
  }

  predicate HasPrefix(s: string, prefix: string) {
    |prefix| <= |s| && s[..|prefix|] == prefix
  }

  /** strings.Compare: lexicographic, -1, 0 or 1. */
  function CompareText(a: string, b: string): int {
    if a == "" && b == "" then 0
    else if a == "" then -1
    else if b == "" then 1
    else if a[0] != b[0] then (if a[0] < b[0] then -1 else 1)
    else CompareText(a[1..], b[1..])
  }

  /** Lexicographic order is antisymmetric, and ties only equal strings. */
  lemma {:induction false} CompareTextAntisymmetric(a: string, b: string)
    ensures CompareText(b, a) == -CompareText(a, b)
    ensures CompareText(a, b) in {-1, 0, 1}
    ensures CompareText(a, b) == 0 <==> a == b
  {
    if a != "" && b != "" && a[0] == b[0] {
      CompareTextAntisymmetric(a[1..], b[1..]);
      assert a == [a[0]] + a[1..] && b == [b[0]] + b[1..];
    }
  }

  lemma {:induction false} CompareTextTransitive(a: string, b: string, c: string)
    requires CompareText(a, b) <= 0 && CompareText(b, c) <= 0
    ensures CompareText(a, c) <= 0
    ensures CompareText(a, b) < 0 || CompareText(b, c) < 0 ==> CompareText(a, c) < 0
  {
    if a != "" && b != "" && c != "" && a[0] == b[0] == c[0] {
      CompareTextTransitive(a[1..], b[1..], c[1..]);
    }
  }
}
