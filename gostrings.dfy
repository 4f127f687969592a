/** The Go standard-library string operations that image.go relies on:
    strings.Index, strings.Replace with a count of one, and fmt's `%d` verb.
    Each is written out here so that what pieceXML builds can be read back. */
module GoStrings {

  /** `pattern` occurs in `s` starting at index `i`. */
  predicate OccursAt(s: string, pattern: string, i: int) {
    0 <= i && i + |pattern| <= |s| && s[i..i + |pattern|] == pattern
  }

  /** strings.Index: the first index at which `pattern` occurs in `s`, or -1. */
  function Index(s: string, pattern: string): (i: int)
    ensures -1 <= i <= |s|
    ensures 0 <= i ==> OccursAt(s, pattern, i)
    ensures forall j :: 0 <= j && (i < 0 || j < i) ==> !OccursAt(s, pattern, j)
  {
    IndexFrom(s, pattern, 0)
  }

  /** The first occurrence of `pattern` in `s` at or after `from`, or -1. */
  function IndexFrom(s: string, pattern: string, from: nat): (i: int)
    requires from <= |s|
    ensures i == -1 || from <= i <= |s|
    ensures 0 <= i ==> OccursAt(s, pattern, i)
    ensures forall j :: from <= j && (i < 0 || j < i) ==> !OccursAt(s, pattern, j)
    decreases |s| - from
  {
    if from + |pattern| > |s| then -1
    else if s[from..from + |pattern|] == pattern then from
    else IndexFrom(s, pattern, from + 1)
  }

  /** strings.Replace(s, pattern, replacement, 1): only the first occurrence
      of `pattern` is replaced; without one, `s` comes back unchanged. */
  function ReplaceFirst(s: string, pattern: string, replacement: string): (r: string)
    ensures Index(s, pattern) < 0 ==> r == s
    ensures 0 <= Index(s, pattern) ==>
      var i := Index(s, pattern);
      && |r| == |s| - |pattern| + |replacement|
      && r[..i] == s[..i]
      && OccursAt(r, replacement, i)
      && r[i + |replacement|..] == s[i + |pattern|..]
  {
    var i := Index(s, pattern);
    if i < 0 then s else s[..i] + replacement + s[i + |pattern|..]
  }

  predicate IsDigit(c: char) {
    '0' <= c <= '9'
  }

  function DigitChar(d: int): (c: char)
    requires 0 <= d < 10
    ensures IsDigit(c)
  {
    ('0' as int + d) as char
  }

  function DigitValue(c: char): (d: int)
    ensures 0 <= d < 10
  {
    if IsDigit(c) then c as int - '0' as int else 0
  }

  /** The decimal digits of `n`, most significant first, without leading zeros. */
  function NatToDecimal(n: nat): (s: string)
    ensures |s| >= 1
    ensures forall k :: 0 <= k < |s| ==> IsDigit(s[k])
  {
    if n < 10 then [DigitChar(n)] else NatToDecimal(n / 10) + [DigitChar(n % 10)]
  }

  /** fmt's `%d` verb: a minus sign for a negative value, then the digits. */
  function FormatInt(n: int): (s: string)
    ensures |s| >= 1 && ' ' !in s
  {
    if n < 0 then "-" + NatToDecimal(-n) else NatToDecimal(n)
  }

  function ParseNat(s: string): nat {
    if s == [] then 0 else 10 * ParseNat(s[..|s| - 1]) + DigitValue(s[|s| - 1])
  }

  function ParseInt(s: string): int {
    if |s| > 0 && s[0] == '-' then -(ParseNat(s[1..]) as int) else ParseNat(s)
  }

  lemma {:induction false} ParseNatToDecimal(n: nat)
    ensures ParseNat(NatToDecimal(n)) == n
  {
    if n >= 10 {
      var s := NatToDecimal(n);
      assert s[..|s| - 1] == NatToDecimal(n / 10);
      ParseNatToDecimal(n / 10);
    }
  }

  /** `%d` loses nothing: the printed integer reads back as itself. */
  lemma ParseFormatInt(n: int)
    ensures ParseInt(FormatInt(n)) == n
  {
    var digits := NatToDecimal(if n < 0 then -n else n);
    ParseNatToDecimal(if n < 0 then -n else n);
    if n < 0 {
      assert FormatInt(n)[1..] == digits;
    } else {
      assert IsDigit(digits[0]);
    }
  }

  /** Splitting `a + " " + b` at its first space gives back `a` when `a` has no space. */
  lemma IndexOfSeparator(a: string, b: string)
    requires ' ' !in a
    ensures Index(a + " " + b, " ") == |a|
  {
    var s := a + " " + b;
    assert OccursAt(s, " ", |a|) by {
      assert s[|a|..|a| + 1] == " ";
    }
    forall j | 0 <= j < |a|
      ensures !OccursAt(s, " ", j)
    {
      assert s[j] == a[j];
      assert a[j] in a;
      assert s[j..j + 1] == [a[j]];
    }
  }
}
