/**
 * The handful of `java.lang.String` / `Long` operations the server code relies on,
 * stated over Dafny strings: `indexOf`, `contains`, `split` with a literal delimiter,
 * `toLowerCase` for the characters that lower to ASCII letters, `trim`, UTF-16 `length()`, `Long.toString`, `%05d` padding,
 * and the truncating `%` operator.
 */
module JavaText {
  import opened Options

  /** `pat` occurs in `s` starting at index `i`. */
  predicate OccursAt(s: string, pat: string, i: int) {
    0 <= i && i + |pat| <= |s| && s[i..i + |pat|] == pat
  }

  /** `s.indexOf(pat, from)`: the first occurrence of `pat` at or after `from`. */
  function IndexOfFrom(s: string, pat: string, from: nat): (r: Option<nat>)
    decreases |s| - from
    ensures r.Some? ==> from <= r.value && OccursAt(s, pat, r.value)
    ensures r.Some? ==> forall j :: from <= j < r.value ==> !OccursAt(s, pat, j)
    ensures r.None? ==> forall j :: from <= j ==> !OccursAt(s, pat, j)
  {
    if from + |pat| > |s| then None
    else if s[from..from + |pat|] == pat then Some(from)
    else IndexOfFrom(s, pat, from + 1)
  }

  /** `s.indexOf(pat)`. */
  function IndexOf(s: string, pat: string): Option<nat> {
    IndexOfFrom(s, pat, 0)
  }

  /** `s.contains(pat)`: some occurrence exists. */
  function Contains(s: string, pat: string): (b: bool)
    ensures b <==> exists i :: OccursAt(s, pat, i)
  {
    IndexOf(s, pat).Some?
  }

  /** An occurrence inside a prefix is an occurrence in the whole string. */
  lemma OccursInPrefix(s: string, pat: string, n: nat, j: int)
    requires n <= |s|
    requires OccursAt(s[..n], pat, j)
    ensures OccursAt(s, pat, j)
  {
    assert s[..n][j..j + |pat|] == s[j..j + |pat|];
  }

  /** The text before the first occurrence contains no occurrence at all. */
  lemma NoOccurrenceBeforeFirst(s: string, pat: string)
    requires |pat| > 0
    requires IndexOf(s, pat).Some?
    ensures IndexOf(s[..IndexOf(s, pat).value], pat).None?
  {
    var i := IndexOf(s, pat).value;
    if IndexOf(s[..i], pat).Some? {
      var j := IndexOf(s[..i], pat).value;
      OccursInPrefix(s, pat, i, j);
      assert false;
    }
  }

  // ---------------------------------------------------------------------------
  // String.split with a literal delimiter and limit 0

  /**
   * The substrings between successive non-overlapping occurrences of `d`, scanning
   * left to right, including empty ones (`Pattern.split` before trailing empties are dropped).
   */
  function RawSplit(s: string, d: string): (parts: seq<string>)
    requires |d| > 0
    decreases |s|
    ensures |parts| >= 1
  {
    match IndexOf(s, d)
    case None => [s]
    case Some(i) => [s[..i]] + RawSplit(s[i + |d|..], d)
  }

  /** Removes trailing empty strings, as `split` does with limit 0. */
  function DropTrailingEmpty(parts: seq<string>): (r: seq<string>)
    ensures |r| <= |parts| && r == parts[..|r|]
    ensures |r| == 0 <==> forall k :: 0 <= k < |parts| ==> parts[k] == []
    ensures |r| > 0 ==> r[|r| - 1] != []
  {
    if |parts| > 0 && parts[|parts| - 1] == [] then
      var r := DropTrailingEmpty(parts[..|parts| - 1]);
      assert parts[..|parts| - 1][..|r|] == parts[..|r|];
      r
    else parts
  }

  /**
   * `s.split(regex)` where the regex matches exactly the literal `d`: with no occurrence the
   * result is `[s]` untouched; otherwise the raw parts with trailing empty strings removed.
   */
  function Split(s: string, d: string): seq<string>
    requires |d| > 0
  {
    if IndexOf(s, d).None? then [s] else DropTrailingEmpty(RawSplit(s, d))
  }

  /** `k` back-to-back copies of `d`. */
  function Repeat(d: string, k: nat): string {
    if k == 0 then [] else d + Repeat(d, k - 1)
  }

  /** `s` is one or more back-to-back copies of `d` and nothing else. */
  ghost predicate IsRepetition(s: string, d: string) {
    exists k :: k >= 1 && s == Repeat(d, k)
  }

  /** Every raw part is empty. */
  predicate AllEmpty(parts: seq<string>) {
    forall k :: 0 <= k < |parts| ==> parts[k] == []
  }

  /** The raw split of `k >= 1` copies of the delimiter consists of empty strings only. */
  lemma {:induction false} RawSplitOfRepeat(d: string, k: nat)
    requires |d| > 0 && k >= 1
    ensures AllEmpty(RawSplit(Repeat(d, k), d))
  {
    var s := Repeat(d, k);
    assert s[0..|d|] == d;
    assert IndexOf(s, d) == Some(0);
    assert s[|d|..] == Repeat(d, k - 1);
    if k == 1 {
      assert Repeat(d, 0) == [];
      assert RawSplit(s, d) == [[]] + RawSplit([], d);
    } else {
      RawSplitOfRepeat(d, k - 1);
    }
  }

  /** Conversely, a string whose raw split is all empty is a repetition of the delimiter. */
  lemma {:induction false} AllEmptyIsRepeat(s: string, d: string) returns (k: nat)
    requires |d| > 0
    requires AllEmpty(RawSplit(s, d))
    decreases |s|
    ensures s == Repeat(d, k)
    ensures IndexOf(s, d).Some? ==> k >= 1
  {
    var parts := RawSplit(s, d);
    assert parts[0] == [];
    if IndexOf(s, d).None? {
      k := 0;
    } else {
      var i := IndexOf(s, d).value;
      var rest := s[i + |d|..];
      assert parts == [s[..i]] + RawSplit(rest, d);
      assert i == 0;
      AllEmptyTail(s[..i], RawSplit(rest, d));
      var k' := AllEmptyIsRepeat(rest, d);
      k := k' + 1;
      assert s == s[..|d|] + rest;
    }
  }

  lemma AllEmptyTail(head: string, tail: seq<string>)
    requires AllEmpty([head] + tail)
    ensures AllEmpty(tail)
  {
    forall m | 0 <= m < |tail| ensures tail[m] == [] {
      assert tail[m] == ([head] + tail)[m + 1];
    }
  }

  /**
   * `split` returns an empty array exactly when the input is made of one or more copies of
   * the delimiter and nothing else; otherwise its first element is the text before the first
   * occurrence (or the whole input when there is none).
   */
  lemma SplitShape(s: string, d: string)
    requires |d| > 0
    ensures |Split(s, d)| == 0 <==> IsRepetition(s, d)
    ensures |Split(s, d)| > 0 && IndexOf(s, d).None? ==> Split(s, d)[0] == s
    ensures |Split(s, d)| > 0 && IndexOf(s, d).Some? ==>
              Split(s, d)[0] == s[..IndexOf(s, d).value]
  {
    if |Split(s, d)| == 0 {
      assert IndexOf(s, d).Some?;
      var k := AllEmptyIsRepeat(s, d);
      assert k >= 1 && s == Repeat(d, k);
    }
    if k :| k >= 1 && s == Repeat(d, k) {
      RawSplitOfRepeat(d, k);
      assert s[0..|d|] == d;
      assert IndexOf(s, d) == Some(0);
    }
  }

  // ---------------------------------------------------------------------------
  // toLowerCase, trim, length

  /** ASCII lower-casing of one character; every other character is left as it is. */
  function LowerChar(c: char): char {
    if 'A' <= c <= 'Z' then (c as int + 32) as char else c
  }

  /** `s.toLowerCase()` restricted to ASCII letters. */
  function ToLowerAscii(s: string): (r: string)
    ensures |r| == |s|
    ensures forall i :: 0 <= i < |s| ==> r[i] == LowerChar(s[i])
  {
    seq(|s|, i requires 0 <= i < |s| => LowerChar(s[i]))
  }

  /**
   * `String.toLowerCase()` of one character, in a default locale without language-specific
   * rules, for every character whose lower case contains an ASCII letter: 'A' to 'Z', the KELVIN
   * SIGN U+212A (lower case 'k') and LATIN CAPITAL LETTER I WITH DOT ABOVE U+0130 (lower case
   * "i" followed by COMBINING DOT ABOVE U+0307). Every other character is kept as it is.
   */
  function LowerJavaChar(c: char): (r: string)
    ensures |r| >= 1
  {
    if c == '\U{212A}' then "k"
    else if c == '\U{0130}' then "i\U{0307}"
    else [LowerChar(c)]
  }

  /** `s.toLowerCase()` character by character, as `LowerJavaChar` describes it. */
  function ToLowerJava(s: string): (r: string)
    ensures |r| >= |s|
  {
    if |s| == 0 then [] else LowerJavaChar(s[0]) + ToLowerJava(s[1..])
  }

  /** On text without the two special capitals, the lower case keeps the length and lowers ASCII only. */
  lemma {:induction false} ToLowerJavaOfPlain(s: string)
    requires forall i :: 0 <= i < |s| ==> s[i] != '\U{212A}' && s[i] != '\U{0130}'
    ensures ToLowerJava(s) == ToLowerAscii(s)
  {
    if |s| > 0 {
      ToLowerJavaOfPlain(s[1..]);
      assert ToLowerAscii(s) == [LowerChar(s[0])] + ToLowerAscii(s[1..]);
    }
  }

  /** Characters `String.trim()` strips: code point at most U+0020. */
  predicate IsTrimmed(c: char) {
    c <= ' '
  }

  function TrimStart(s: string): (r: string)
    ensures |r| <= |s| && r == s[|s| - |r|..]
    ensures forall i :: 0 <= i < |s| - |r| ==> IsTrimmed(s[i])
    ensures |r| > 0 ==> !IsTrimmed(r[0])
  {
    if |s| > 0 && IsTrimmed(s[0]) then
      var r := TrimStart(s[1..]);
      assert forall i :: 1 <= i < |s| - |r| ==> s[i] == s[1..][i - 1];
      r
    else s
  }

  function TrimEnd(s: string): (r: string)
    ensures |r| <= |s| && r == s[..|r|]
    ensures forall i :: |r| <= i < |s| ==> IsTrimmed(s[i])
    ensures |r| > 0 ==> !IsTrimmed(r[|r| - 1])
  {
    if |s| > 0 && IsTrimmed(s[|s| - 1]) then
      var r := TrimEnd(s[..|s| - 1]);
      assert s[..|s| - 1][..|r|] == s[..|r|];
      r
    else s
  }

  /** `s.trim()`. */
  function Trim(s: string): string {
    TrimEnd(TrimStart(s))
  }

  /** `s.trim().isEmpty()` holds exactly when every character of `s` is at most U+0020. */
  lemma TrimEmptyIff(s: string)
    ensures Trim(s) == [] <==> forall i :: 0 <= i < |s| ==> IsTrimmed(s[i])
  {
    var t := TrimStart(s);
    if Trim(s) == [] {
      assert |t| == 0;
    }
  }

  /** Java's `String.length()`: UTF-16 code units, two for a character beyond U+FFFF. */
  function Utf16Length(s: string): (n: nat)
    ensures |s| <= n <= 2 * |s|
  {
    if |s| == 0 then 0
    else Utf16Length(s[..|s| - 1]) + (if s[|s| - 1] as int > 0xFFFF then 2 else 1)
  }

  // ---------------------------------------------------------------------------
  // Decimal rendering

  function Digit(d: nat): (c: char)
    requires d < 10
    ensures '0' <= c <= '9'
  {
    ('0' as int + d) as char
  }

  predicate IsDigits(s: string) {
    forall i :: 0 <= i < |s| ==> '0' <= s[i] <= '9'
  }

  /** `Long.toString(n)` for a non-negative `n`: no leading zeros, at least one digit. */
  function Decimal(n: nat): (r: string)
    ensures |r| >= 1 && IsDigits(r)
  {
    if n < 10 then [Digit(n)] else Decimal(n / 10) + [Digit(n % 10)]
  }

  /** The number a run of decimal digits denotes (leading zeros allowed). */
  function Value(s: string): nat
    requires IsDigits(s)
  {
    if |s| == 0 then 0 else Value(s[..|s| - 1]) * 10 + (s[|s| - 1] as int - '0' as int)
  }

  /** Reading back a rendered number gives the number. */
  lemma {:induction false} ValueOfDecimal(n: nat)
    ensures Value(Decimal(n)) == n
  {
    if n >= 10 {
      var r := Decimal(n);
      assert r[..|r| - 1] == Decimal(n / 10);
      ValueOfDecimal(n / 10);
    }
  }

  /** Below `10^5` a number renders in at most five digits. */
  lemma {:induction false} DecimalShort(n: nat, k: nat)
    requires 1 <= k && n < Pow10(k)
    ensures |Decimal(n)| <= k
  {
    if n >= 10 {
      assert k >= 2;
      DecimalShort(n / 10, k - 1);
    }
  }

  function Pow10(k: nat): (p: nat)
    ensures p >= 1
  {
    if k == 0 then 1 else 10 * Pow10(k - 1)
  }

  function Zeros(k: nat): (z: string)
    ensures |z| == k && IsDigits(z)
    ensures forall i :: 0 <= i < k ==> z[i] == '0'
  {
    seq(k, _ => '0')
  }

  /** Leading zeros do not change the value of a digit run. */
  lemma {:induction false} ValueIgnoresLeadingZeros(k: nat, s: string)
    requires IsDigits(s)
    ensures Value(Zeros(k) + s) == Value(s)
    decreases |s|, k
  {
    if |s| == 0 {
      assert Zeros(k) + s == Zeros(k);
      if k > 0 {
        assert Zeros(k)[..k - 1] == Zeros(k - 1);
        ValueIgnoresLeadingZeros(k - 1, s);
        assert Zeros(k - 1) + s == Zeros(k - 1);
      }
    } else {
      var t := Zeros(k) + s;
      assert t[..|t| - 1] == Zeros(k) + s[..|s| - 1];
      ValueIgnoresLeadingZeros(k, s[..|s| - 1]);
    }
  }

  /** `String.format("%0<width>d", n)` for a non-negative `n`. */
  function ZeroPad(n: nat, width: nat): (r: string)
    ensures IsDigits(r)
    ensures |r| == if |Decimal(n)| >= width then |Decimal(n)| else width
    ensures Value(r) == n
  {
    var digits := Decimal(n);
    ValueOfDecimal(n);
    if |digits| >= width then digits
    else
      ValueIgnoresLeadingZeros(width - |digits|, digits);
      Zeros(width - |digits|) + digits
  }

  /** `Long.toString(x)` for any sign. */
  function LongToString(x: int): (r: string)
    ensures x >= 0 ==> r == Decimal(x)
    ensures x < 0 ==> r == ['-'] + Decimal(-x)
  {
    if x < 0 then ['-'] + Decimal(-x) else Decimal(x)
  }

  /** Java's `a % b` for `b > 0`: truncating, so the result takes the sign of `a`. */
  function JavaRem(a: int, b: int): (r: int)
    requires b > 0
    ensures a >= 0 ==> 0 <= r < b
    ensures a < 0 ==> -b < r <= 0
  {
    if a >= 0 then a % b else -((-a) % b)
  }
}
