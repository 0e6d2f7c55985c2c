/**
 * String helpers shared by the scripts and the browser code: Python's
 * `str.strip()`, JavaScript's `String.prototype.trim()`, lower-casing,
 * substring search and decimal digits.
 */
module Text {
  import opened Wrappers

  /** `c.isspace()` in Python: the characters `str.strip()` removes. */
  predicate IsPySpace(c: char) {
    var n := c as int;
    n == 0x20 || 0x09 <= n <= 0x0D || 0x1C <= n <= 0x1F || n == 0x85 || n == 0xA0
    || n == 0x1680 || 0x2000 <= n <= 0x200A || n == 0x2028 || n == 0x2029
    || n == 0x202F || n == 0x205F || n == 0x3000
  }

  /** The white space and line terminators JavaScript's `trim()` removes. */
  predicate IsJsSpace(c: char) {
    var n := c as int;
    n == 0x20 || 0x09 <= n <= 0x0D || n == 0xA0 || n == 0xFEFF
    || n == 0x1680 || 0x2000 <= n <= 0x200A || n == 0x2028 || n == 0x2029
    || n == 0x202F || n == 0x205F || n == 0x3000
  }

  /** Drops the leading characters satisfying `p`. */
  function TrimStart(s: string, p: char -> bool): string {
    if s != [] && p(s[0]) then TrimStart(s[1..], p) else s
  }

  /** Drops the trailing characters satisfying `p`. */
  function TrimEnd(s: string, p: char -> bool): string {
    if s != [] && p(s[|s| - 1]) then TrimEnd(s[..|s| - 1], p) else s
  }

  /** Drops the characters satisfying `p` at both ends. */
  function Trim(s: string, p: char -> bool): string {
    TrimEnd(TrimStart(s, p), p)
  }

  /** TrimStart removes a prefix of `p` characters and stops at the first other one. */
  lemma {:induction false} TrimStartSuffix(s: string, p: char -> bool) returns (i: nat)
    ensures i <= |s| && TrimStart(s, p) == s[i..]
    ensures forall k :: 0 <= k < i ==> p(s[k])
    ensures i < |s| ==> !p(s[i])
  {
    if s != [] && p(s[0]) {
      var i' := TrimStartSuffix(s[1..], p);
      i := i' + 1;
      assert s[1..][i'..] == s[i..];
      assert forall k :: 1 <= k < i ==> s[k] == s[1..][k - 1];
    } else {
      i := 0;
    }
  }

  /** TrimEnd removes a suffix of `p` characters and stops at the last other one. */
  lemma {:induction false} TrimEndPrefix(s: string, p: char -> bool) returns (j: nat)
    ensures j <= |s| && TrimEnd(s, p) == s[..j]
    ensures forall k :: j <= k < |s| ==> p(s[k])
    ensures 0 < j ==> !p(s[j - 1])
  {
    if s != [] && p(s[|s| - 1]) {
      var t := s[..|s| - 1];
      j := TrimEndPrefix(t, p);
      assert t[..j] == s[..j];
      assert forall k :: j <= k < |t| ==> s[k] == t[k];
    } else {
      j := |s|;
    }
  }

  /**
   * Trim keeps a slice `s[i..j]`: everything before `i` and from `j` on satisfies
   * `p`, and the slice neither begins nor ends with such a character.
   */
  lemma TrimSlice(s: string, p: char -> bool) returns (i: nat, j: nat)
    ensures i <= j <= |s| && Trim(s, p) == s[i..j]
    ensures forall k :: 0 <= k < i ==> p(s[k])
    ensures forall k :: j <= k < |s| ==> p(s[k])
    ensures i < j ==> !p(s[i]) && !p(s[j - 1])
  {
    i := TrimStartSuffix(s, p);
    var t := s[i..];
    var j' := TrimEndPrefix(t, p);
    j := i + j';
    assert t[..j'] == s[i..j];
    assert forall k :: j <= k < |s| ==> s[k] == t[k - i];
    if i < j {
      assert t[0] == s[i] && t[j' - 1] == s[j - 1];
    }
  }

  /** Nothing is trimmed from a string whose ends do not satisfy `p`. */
  lemma TrimKeeps(s: string, p: char -> bool)
    requires s != [] ==> !p(s[0]) && !p(s[|s| - 1])
    ensures Trim(s, p) == s
  {
    assert TrimStart(s, p) == s;
  }

  /** Trimming twice is trimming once. */
  lemma TrimIdempotent(s: string, p: char -> bool)
    ensures Trim(Trim(s, p), p) == Trim(s, p)
  {
    var i, j := TrimSlice(s, p);
    var t := Trim(s, p);
    if t != [] {
      assert t[0] == s[i] && t[|t| - 1] == s[j - 1];
    }
    TrimKeeps(t, p);
  }

  /** Python's `s.strip()`. */
  function PyStrip(s: string): string {
    Trim(s, IsPySpace)
  }

  /** JavaScript's `s.trim()`. */
  function JsTrim(s: string): string {
    Trim(s, IsJsSpace)
  }

  /**
   * Lower-casing of one character as Python's `str.lower()` and JavaScript's
   * `toLowerCase()` do it, for the Basic Latin and Latin-1 Supplement blocks:
   * A-Z and the Latin-1 capitals (U+00C0..U+00DE except the multiplication
   * sign) move down by 0x20. Every other character is left as it is.
   */
  function LowerChar(c: char): (r: char)
    ensures 'A' <= c <= 'Z' ==> r as int == c as int + 32
    ensures !('A' <= c <= 'Z') && c as int < 0x80 ==> r == c
  {
    var n := c as int;
    if 0x41 <= n <= 0x5A || (0xC0 <= n <= 0xDE && n != 0xD7) then (n + 32) as char else c
  }

  function Lower(s: string): (r: string)
    ensures |r| == |s| && forall i :: 0 <= i < |s| ==> r[i] == LowerChar(s[i])
  {
    seq(|s|, i requires 0 <= i < |s| => LowerChar(s[i]))
  }

  /** `t in s` for strings (Python) or `s.includes(t)` (JavaScript). */
  predicate Contains(s: string, t: string) {
    t <= s || (s != [] && Contains(s[1..], t))
  }

  predicate IsDigit(c: char) {
    '0' <= c <= '9'
  }

  function DigitValue(c: char): (d: nat)
    requires IsDigit(c)
    ensures d < 10
  {
    c as int - '0' as int
  }

  function DigitChar(d: nat): (c: char)
    requires d < 10
    ensures IsDigit(c) && DigitValue(c) == d
  {
    ('0' as int + d) as char
  }

  /** The value of a non-empty run of decimal digits, most significant first. */
  function DigitsValue(s: string): (n: nat)
    requires forall i :: 0 <= i < |s| ==> IsDigit(s[i])
  {
    if s == [] then 0 else DigitsValue(s[..|s| - 1]) * 10 + DigitValue(s[|s| - 1])
  }

  /** `str(n)` for a natural number: decimal digits without leading zeros. */
  function NatToString(n: nat): (s: string)
    ensures s != [] && forall i :: 0 <= i < |s| ==> IsDigit(s[i])
    ensures DigitsValue(s) == n
    decreases n
  {
    if n < 10 then [DigitChar(n)] else
      var p := NatToString(n / 10);
      var s := p + [DigitChar(n % 10)];
      assert s[..|s| - 1] == p;
      s
  }

  /**
   * `n` written with exactly `width` digits, zero-padded on the left, as the
   * `%Y`, `%m` and `%d` directives of `strftime` write the parts of a date.
   */
  function PadDigits(n: nat, width: nat): (s: string)
    ensures |s| == width && forall i :: 0 <= i < |s| ==> IsDigit(s[i])
    ensures n < Pow10(width) ==> DigitsValue(s) == n
  {
    if width == 0 then [] else
      var p := PadDigits(n / 10, width - 1);
      var s := p + [DigitChar(n % 10)];
      assert s[..|s| - 1] == p;
      s
  }

  function Pow10(k: nat): (p: nat)
    ensures p >= 1
  {
    if k == 0 then 1 else 10 * Pow10(k - 1)
  }

  /** The part before the first `sep` and the part after it, when `sep` occurs. */
  function SplitFirst(s: string, sep: char): (r: Option<(string, string)>)
    ensures r.None? <==> sep !in s
    ensures r.Some? ==> s == r.value.0 + [sep] + r.value.1 && sep !in r.value.0
  {
    if s == [] then None
    else if s[0] == sep then Some(([], s[1..]))
    else match SplitFirst(s[1..], sep)
      case None => None
      case Some((a, b)) => assert s == [s[0]] + s[1..]; Some(([s[0]] + a, b))
  }

  /** Splitting `a + [sep] + b` at the first `sep` gives back `a` and `b` when `a` has no `sep`. */
  lemma {:induction false} SplitFirstAt(a: string, sep: char, b: string)
    requires sep !in a
    ensures SplitFirst(a + [sep] + b, sep) == Some((a, b))
  {
    var s := a + [sep] + b;
    if a == [] {
      assert s[0] == sep && s[1..] == b;
    } else {
      assert s[0] == a[0] && s[1..] == a[1..] + [sep] + b;
      SplitFirstAt(a[1..], sep, b);
      assert [a[0]] + a[1..] == a;
    }
  }

  /** Splits `s` at every `sep`, as Python's `str.split(sep)` and JavaScript's `split(sep)` do. */
  function SplitAll(s: string, sep: char): (parts: seq<string>)
    ensures |parts| >= 1
    ensures sep !in s ==> parts == [s]
    ensures forall i :: 0 <= i < |parts| ==> sep !in parts[i]
    decreases |s|
  {
    match SplitFirst(s, sep)
    case None => [s]
    case Some((a, b)) => [a] + SplitAll(b, sep)
  }

  /** Two pieces without `sep`, joined by one `sep`, split back into the two. */
  lemma SplitAllTwo(a: string, sep: char, b: string)
    requires sep !in a && sep !in b
    ensures SplitAll(a + [sep] + b, sep) == [a, b]
  {
    SplitFirstAt(a, sep, b);
  }

  /** A string holding `t` holds its first character. */
  lemma {:induction false} ContainsFirst(s: string, t: string)
    requires t != [] && Contains(s, t)
    ensures t[0] in s
  {
    if !(t <= s) {
      ContainsFirst(s[1..], t);
      assert t[0] in s[1..];
    }
  }

  /** `sep.join(parts)`. */
  function JoinWith(parts: seq<string>, sep: string): string {
    if parts == [] then [] else if |parts| == 1 then parts[0] else parts[0] + sep + JoinWith(parts[1..], sep)
  }
}
