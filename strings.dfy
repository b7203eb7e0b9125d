/**
 * The few Python string operations the core relies on, over `seq<char>`:
 * `str.lower()` and `str.isspace()` restricted to ASCII, `str.endswith`, and
 * the position of the last occurrence of a character (`str.rfind`), and
 * `str(n)` for integers.
 */
module Strings {
  import opened Wrappers

  function LowerChar(c: char): char
  {
    if 'A' <= c <= 'Z' then (c as int + 32) as char else c
  }

  /** `s.lower()` for ASCII text: same length, letters folded, everything else kept. */
  function Lower(s: string): (r: string)
    ensures |r| == |s|
    ensures forall i :: 0 <= i < |s| ==> r[i] == LowerChar(s[i])
  {
    seq(|s|, i requires 0 <= i < |s| => LowerChar(s[i]))
  }

  /**
   * The ASCII characters `str.isspace()` accepts: space, \t, \n, \v, \f,
   * \r and the four separators \x1c to \x1f.
   */
  predicate IsSpace(c: char)
  {
    c == ' ' || c == '\t' || c == '\n' || c == '\r' || c == '\U{000B}' || c == '\U{000C}'
    || '\U{001C}' <= c <= '\U{001F}'
  }

  /** `s.strip()` is non-empty: some character of `s` is not whitespace. */
  predicate HasText(s: string)
  {
    exists i :: 0 <= i < |s| && !IsSpace(s[i])
  }

  predicate EndsWith(s: string, suffix: string)
  {
    |suffix| <= |s| && s[|s| - |suffix|..] == suffix
  }

  /** `s.rfind(c)`: the index of the last `c` in `s`, None when there is none. */
  function LastIndex(s: string, c: char): (r: Option<nat>)
    ensures r.None? <==> c !in s
    ensures r.Some? ==> r.value < |s| && s[r.value] == c
    ensures r.Some? ==> c !in s[r.value + 1..]
  {
    if s == [] then None
    else if s[|s| - 1] == c then Some(|s| - 1)
    else
      var r := LastIndex(s[..|s| - 1], c);
      assert s == s[..|s| - 1] + [s[|s| - 1]];
      if r.Some? then
        assert s[r.value + 1..] == s[..|s| - 1][r.value + 1..] + [s[|s| - 1]];
        r
      else r
  }

  /** Lower-casing commutes with taking a suffix. */
  lemma LowerSuffix(s: string, a: nat)
    requires a <= |s|
    ensures Lower(s[a..]) == Lower(s)[a..]
  {
    assert forall k :: 0 <= k < |s| - a ==> Lower(s[a..])[k] == LowerChar(s[a + k]) == Lower(s)[a..][k];
  }

  /** A `c` at `j` with none after it is the last one. */
  lemma LastIndexAt(s: string, c: char, j: nat)
    requires j < |s| && s[j] == c
    requires forall k :: j < k < |s| ==> s[k] != c
    ensures LastIndex(s, c) == Some(j)
  {
    var i := LastIndex(s, c).value;
  }

  /** The text after the last '.' is `e` (up to case) exactly when the name ends with '.' + `e`. */
  lemma ExtensionIsSuffix(s: string, e: string)
    requires '.' !in e
    ensures (LastIndex(s, '.').Some? && Lower(s[LastIndex(s, '.').value + 1..]) == e)
            <==> EndsWith(Lower(s), "." + e)
  {
    var li := LastIndex(s, '.');
    if li.Some? && Lower(s[li.value + 1..]) == e {
      ExtensionGivesSuffix(s, e, li.value);
    }
    if EndsWith(Lower(s), "." + e) {
      SuffixGivesExtension(s, e);
    }
  }

  lemma ExtensionGivesSuffix(s: string, e: string, i: nat)
    requires i < |s| && s[i] == '.' && Lower(s[i + 1..]) == e
    ensures EndsWith(Lower(s), "." + e)
  {
    var low, dotted := Lower(s), "." + e;
    assert |e| == |s| - i - 1;
    forall k | 0 <= k < |dotted| ensures low[i..][k] == dotted[k] {
      if k > 0 {
        assert low[i + k] == LowerChar(s[i + k]);
        assert s[i + k] == s[i + 1..][k - 1];
        assert Lower(s[i + 1..])[k - 1] == LowerChar(s[i + 1..][k - 1]);
      }
    }
    assert low[i..] == dotted;
  }

  lemma SuffixGivesExtension(s: string, e: string)
    requires '.' !in e
    requires EndsWith(Lower(s), "." + e)
    ensures LastIndex(s, '.').Some? && Lower(s[LastIndex(s, '.').value + 1..]) == e
  {
    DottedSuffix(s, e);
    ExtensionAfterLastDot(s, e, |s| - |e| - 1);
  }

  lemma ExtensionAfterLastDot(s: string, e: string, j: nat)
    requires j < |s| && s[j] == '.' && (forall k :: j < k < |s| ==> s[k] != '.') && Lower(s[j + 1..]) == e
    ensures LastIndex(s, '.').Some? && Lower(s[LastIndex(s, '.').value + 1..]) == e
  {
    LastIndexAt(s, '.', j);
  }

  /** A lower-cased name ending in '.' + `e` has its dot at the same place and `e` after it. */
  lemma DottedSuffix(s: string, e: string)
    requires '.' !in e
    requires EndsWith(Lower(s), "." + e)
    ensures var j := |s| - |e| - 1;
      s[j] == '.' && (forall k :: j < k < |s| ==> s[k] != '.') && Lower(s[j + 1..]) == e
  {
    var low := Lower(s);
    var j := |s| - |e| - 1;
    assert low[j + 1..] == e by {
      assert low[j..] == "." + e;
      assert low[j..][1..] == low[j + 1..];
    }
    LowerSuffix(s, j + 1);
    forall k | j < k < |s| ensures s[k] != '.' {
      assert low[j + 1..][k - j - 1] == low[k];
      assert low[k] in e;
    }
    assert low[j] == low[j..][0] == '.';
    LowerCharKeepsDot(s[j]);
  }

  lemma LowerCharKeepsDot(c: char)
    ensures LowerChar(c) == '.' <==> c == '.'
  {
  }


  predicate StartsWith(s: string, prefix: string)
  {
    |prefix| <= |s| && s[..|prefix|] == prefix
  }

  predicate IsDigit(c: char)
  {
    '0' <= c <= '9'
  }

  predicate AllDigits(s: string)
  {
    forall i :: 0 <= i < |s| ==> IsDigit(s[i])
  }

  function DigitChar(d: nat): (c: char)
    requires d < 10
    ensures IsDigit(c) && c as int - '0' as int == d
  {
    ('0' as int + d) as char
  }

  /** `str(n)` for a natural number: decimal digits, no leading zero. */
  function NatToDecimal(n: nat): (r: string)
    ensures |r| >= 1 && AllDigits(r)
    ensures r[0] == '0' ==> n == 0 && r == "0"
  {
    if n < 10 then [DigitChar(n)]
    else NatToDecimal(n / 10) + [DigitChar(n % 10)]
  }

  /** The number a string of decimal digits denotes. */
  function DecimalValue(s: string): nat
    requires AllDigits(s)
  {
    if s == [] then 0
    else DecimalValue(s[..|s| - 1]) * 10 + (s[|s| - 1] as int - '0' as int)
  }

  /** Reading back what `str(n)` wrote gives `n`. */
  lemma {:induction false} DecimalRoundTrip(n: nat)
    ensures DecimalValue(NatToDecimal(n)) == n
  {
    if n >= 10 {
      var r := NatToDecimal(n);
      assert r[..|r| - 1] == NatToDecimal(n / 10);
      DecimalRoundTrip(n / 10);
    }
  }

  /** `str(n)` for any integer: a minus sign before the digits of a negative number. */
  function IntToDecimal(n: int): (r: string)
    ensures |r| >= 1 && IsDigit(r[|r| - 1])
    ensures '.' !in r && '/' !in r
    ensures n >= 0 ==> AllDigits(r) && DecimalValue(r) == n
    ensures n < 0 ==> r[0] == '-' && AllDigits(r[1..]) && DecimalValue(r[1..]) == -n
  {
    var digits := NatToDecimal(if n < 0 then -n else n);
    DecimalRoundTrip(if n < 0 then -n else n);
    if n < 0 then
      assert ("-" + digits)[1..] == digits;
      "-" + digits
    else digits
  }
}
