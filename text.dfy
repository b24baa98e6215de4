/**
 * The JavaScript string primitives every puzzle parser is built from:
 * `String.prototype.split` with a string separator, `Array.prototype.join`,
 * `trim`, `replace` with a string pattern, and the global `parseInt` with
 * no radix argument (decimal, or hexadecimal after a `0x`/`0X` prefix).
 */
module Text {

  datatype Option<+T> = None | Some(value: T)

  /** The outcome of a solver step that can throw: a value, or the thrown error's message. */
  datatype Result<+T> = Ok(value: T) | Error(message: string)

  // ---------------------------------------------------------------------
  // Searching and splitting
  // ---------------------------------------------------------------------

  /** `sep` occurs in `s` starting at index `k`. */
  predicate OccursAt(s: string, sep: string, k: nat)
  {
    k + |sep| <= |s| && s[k..k + |sep|] == sep
  }

  /** `s` contains `sep` somewhere. */
  ghost predicate Contains(s: string, sep: string)
  {
    exists k: nat :: OccursAt(s, sep, k)
  }

  lemma OccursShift(s: string, sep: string, k: nat)
    requires |s| > 0
    ensures OccursAt(s[1..], sep, k) <==> OccursAt(s, sep, k + 1)
  {
    if k + 1 + |sep| <= |s| {
      assert s[1..][k..k + |sep|] == s[k + 1..k + 1 + |sep|];
    }
  }

  /** An occurrence that ends within a prefix is an occurrence in the whole string. */
  lemma OccursPrefix(t: string, n: nat, sep: string, j: nat)
    requires n <= |t|
    ensures OccursAt(t[..n], sep, j) ==> OccursAt(t, sep, j)
    ensures j + |sep| <= n ==> (OccursAt(t[..n], sep, j) <==> OccursAt(t, sep, j))
  {
    if j + |sep| <= n {
      assert t[..n][j..j + |sep|] == t[j..j + |sep|];
    }
  }

  /** The index of the leftmost occurrence of `sep` in `s`, as `indexOf` finds it. */
  function Find(s: string, sep: string): (r: Option<nat>)
    requires |sep| > 0
    ensures r.Some? ==> OccursAt(s, sep, r.value)
    ensures r.Some? ==> forall k: nat :: k < r.value ==> !OccursAt(s, sep, k)
    ensures r.None? ==> forall k: nat :: !OccursAt(s, sep, k)
    decreases |s|
  {
    if |s| < |sep| then None
    else if s[..|sep|] == sep then Some(0)
    else
      var rest := Find(s[1..], sep);
      assert forall k: nat :: OccursAt(s[1..], sep, k) <==> OccursAt(s, sep, k + 1) by {
        forall k: nat ensures OccursAt(s[1..], sep, k) <==> OccursAt(s, sep, k + 1) {
          OccursShift(s, sep, k);
        }
      }
      assert forall k: nat :: OccursAt(s, sep, k) && k > 0 ==> OccursAt(s[1..], sep, k - 1);
      match rest
      case None => None
      case Some(k) => Some(k + 1)
  }

  /** The pieces joined back with `sep` between consecutive ones (`Array.prototype.join`). */
  function Join(xs: seq<string>, sep: string): string
  {
    if |xs| == 0 then []
    else if |xs| == 1 then xs[0]
    else xs[0] + sep + Join(xs[1..], sep)
  }

  /**
   * `s.split(sep)` for a non-empty separator: the leftmost occurrence is cut
   * out, and the scan resumes after it.  There is always at least one piece,
   * no piece contains the separator, and joining the pieces gives `s` back.
   */
  function Split(s: string, sep: string): (r: seq<string>)
    requires |sep| > 0
    ensures |r| >= 1
    ensures Join(r, sep) == s
    ensures forall i :: 0 <= i < |r| ==> !Contains(r[i], sep)
    decreases |s|
  {
    match Find(s, sep)
    case None => [s]
    case Some(k) =>
      var head := s[..k];
      var tail := Split(s[k + |sep|..], sep);
      assert !Contains(head, sep) by {
        forall j: nat ensures !OccursAt(head, sep, j) {
          OccursPrefix(s, k, sep, j);
        }
      }
      assert s == head + sep + s[k + |sep|..];
      [head] + tail
  }

  /**
   * No occurrence of `sep` starts inside `piece`, even one that runs into a
   * separator written right after it: the condition under which
   * `Split` recovers `piece` from a joined string.
   */
  ghost predicate Separable(piece: string, sep: string)
  {
    forall k: nat :: k < |piece| ==> !OccursAt(piece + sep, sep, k)
  }

  lemma FindAfterSeparable(piece: string, sep: string, rest: string)
    requires |sep| > 0 && Separable(piece, sep)
    ensures Find(piece + sep + rest, sep) == Some(|piece|)
  {
    var s := piece + sep + rest;
    assert OccursAt(s, sep, |piece|) by {
      assert s[|piece|..|piece| + |sep|] == sep;
    }
    assert s[..|piece| + |sep|] == piece + sep;
    forall k: nat | k < |piece| ensures !OccursAt(s, sep, k) {
      OccursPrefix(s, |piece| + |sep|, sep, k);
    }
  }

  lemma NotContainsOfSeparable(piece: string, sep: string)
    requires |sep| > 0 && Separable(piece, sep)
    ensures !Contains(piece, sep)
  {
    assert (piece + sep)[..|piece|] == piece;
    forall k: nat ensures !OccursAt(piece, sep, k) {
      OccursPrefix(piece + sep, |piece|, sep, k);
    }
  }

  /** Splitting a joined list of separable pieces gives the pieces back. */
  lemma {:induction false} SplitJoin(xs: seq<string>, sep: string)
    requires |sep| > 0 && |xs| >= 1
    requires forall i :: 0 <= i < |xs| ==> Separable(xs[i], sep)
    ensures Split(Join(xs, sep), sep) == xs
    decreases |xs|
  {
    if |xs| == 1 {
      NotContainsOfSeparable(xs[0], sep);
      assert Find(xs[0], sep).None?;
    } else {
      var rest := Join(xs[1..], sep);
      FindAfterSeparable(xs[0], sep, rest);
      var s := xs[0] + sep + rest;
      assert s[|xs[0]| + |sep|..] == rest;
      assert s[..|xs[0]|] == xs[0];
      SplitJoin(xs[1..], sep);
    }
  }

  /** A piece without the separator character is separable for a one-character separator. */
  lemma SeparableByChar(piece: string, c: char)
    requires forall i :: 0 <= i < |piece| ==> piece[i] != c
    ensures Separable(piece, [c])
  {
    forall k: nat | k < |piece| ensures !OccursAt(piece + [c], [c], k) {
      assert (piece + [c])[k] == piece[k];
    }
  }

  /** The leftmost occurrence is found when nothing before it starts like `sep`. */
  lemma FindAt(s: string, sep: string, p: nat)
    requires |sep| > 0 && OccursAt(s, sep, p)
    requires forall k :: 0 <= k < p ==> s[k] != sep[0]
    ensures Find(s, sep) == Some(p)
  {
    forall k: nat | k < p ensures !OccursAt(s, sep, k) {
      if k + |sep| <= |s| {
        assert s[k..k + |sep|][0] == s[k];
      }
    }
  }

  /** `s.replace(pat, rep)` with a string pattern: only the leftmost occurrence is replaced. */
  function Replace(s: string, pat: string, rep: string): string
    requires |pat| > 0
  {
    match Find(s, pat)
    case None => s
    case Some(k) => s[..k] + rep + s[k + |pat|..]
  }

  /** Replacing a pattern whose first character does not occur before it. */
  lemma ReplaceAt(a: string, pat: string, b: string, rep: string)
    requires |pat| > 0
    requires forall k :: 0 <= k < |a| ==> a[k] != pat[0]
    ensures Replace(a + pat + b, pat, rep) == a + rep + b
  {
    var s := a + pat + b;
    assert s[|a|..|a| + |pat|] == pat;
    FindAt(s, pat, |a|);
    assert s[..|a|] == a && s[|a| + |pat|..] == b;
  }

  // ---------------------------------------------------------------------
  // Trimming
  // ---------------------------------------------------------------------

  /**
   * The characters `trim` removes and `parseInt` skips: ECMAScript
   * WhiteSpace (tab, vertical tab, form feed, space, no-break space,
   * byte order mark and the Unicode space separators) and LineTerminator.
   */
  predicate IsSpace(c: char)
  {
    c == ' ' || c == '\t' || c == '\n' || c == '\r' || c == '\U{0B}' || c == '\U{0C}'
    || c == '\U{A0}' || c == '\U{FEFF}' || c == '\U{1680}' || ('\U{2000}' <= c <= '\U{200A}')
    || c == '\U{2028}' || c == '\U{2029}' || c == '\U{202F}' || c == '\U{205F}' || c == '\U{3000}'
  }

  /** The first position at or after `i` that does not hold white space, or `|s|`. */
  function SkipSpaces(s: string, i: nat): (j: nat)
    requires i <= |s|
    ensures i <= j <= |s|
    ensures j < |s| ==> !IsSpace(s[j])
    ensures forall k :: i <= k < j ==> IsSpace(s[k])
    decreases |s| - i
  {
    if i < |s| && IsSpace(s[i]) then SkipSpaces(s, i + 1) else i
  }

  /** The end of `s[..i]` without its trailing white space. */
  function BackSpaces(s: string, i: nat): (j: nat)
    requires i <= |s|
    ensures j <= i
    ensures j > 0 ==> !IsSpace(s[j - 1])
    ensures forall k :: j <= k < i ==> IsSpace(s[k])
  {
    if i > 0 && IsSpace(s[i - 1]) then BackSpaces(s, i - 1) else i
  }

  function TrimStart(s: string): (r: string)
    ensures |r| <= |s| && r == s[|s| - |r|..]
    ensures |r| > 0 ==> !IsSpace(r[0])
    ensures forall k :: 0 <= k < |s| - |r| ==> IsSpace(s[k])
  {
    s[SkipSpaces(s, 0)..]
  }

  function TrimEnd(s: string): (r: string)
    ensures |r| <= |s| && r == s[..|r|]
    ensures |r| > 0 ==> !IsSpace(r[|r| - 1])
    ensures forall k :: |r| <= k < |s| ==> IsSpace(s[k])
  {
    s[..BackSpaces(s, |s|)]
  }

  /**
   * `s.trim()`: `s` without its leading and trailing white space.  The
   * result is a contiguous part of `s`, everything cut off before and after
   * it is white space, it neither starts nor ends with white space, and a
   * string already free of it at both ends is returned as it is.
   */
  function Trim(s: string): (r: string)
    ensures |r| <= |s|
    ensures Stripped(s, r)
    ensures |r| > 0 ==> !IsSpace(r[0]) && !IsSpace(r[|r| - 1])
    ensures (|s| > 0 ==> !IsSpace(s[0]) && !IsSpace(s[|s| - 1])) ==> r == s
  {
    var t := TrimStart(s);
    var a := |s| - |t|;
    var r := TrimEnd(t);
    assert r == s[a..a + |r|];
    assert forall k :: a + |r| <= k < |s| ==> IsSpace(s[k]) by {
      forall k | a + |r| <= k < |s| ensures IsSpace(s[k]) {
        assert s[k] == t[k - a];
      }
    }
    assert StrippedAt(s, r, a);
    r
  }

  /** `r` is the part of `s` from `a` on, and everything around it is white space. */
  predicate StrippedAt(s: string, r: string, a: nat)
  {
    a + |r| <= |s| && r == s[a..a + |r|]
    && (forall k :: 0 <= k < a ==> IsSpace(s[k]))
    && (forall k :: a + |r| <= k < |s| ==> IsSpace(s[k]))
  }

  /** `r` is `s` with some white space cut off at each end. */
  ghost predicate Stripped(s: string, r: string)
  {
    exists a: nat :: StrippedAt(s, r, a)
  }

  // ---------------------------------------------------------------------
  // Numbers
  // ---------------------------------------------------------------------

  predicate IsDigit(c: char)
  {
    '0' <= c <= '9'
  }

  /** The first position at or after `i` that does not hold a decimal digit, or `|s|`. */
  function SkipDigits(s: string, i: nat): (j: nat)
    requires i <= |s|
    ensures i <= j <= |s|
    ensures forall k :: i <= k < j ==> IsDigit(s[k])
    ensures j < |s| ==> !IsDigit(s[j])
    decreases |s| - i
  {
    if i < |s| && IsDigit(s[i]) then SkipDigits(s, i + 1) else i
  }

  /** The value of a string of decimal digits, most significant first. */
  function DigitsValue(d: string): (n: nat)
    requires forall i :: 0 <= i < |d| ==> IsDigit(d[i])
  {
    if |d| == 0 then 0
    else
      var last := d[|d| - 1];
      assert IsDigit(last);
      10 * DigitsValue(d[..|d| - 1]) + (last as int - '0' as int)
  }

  predicate IsHexDigit(c: char)
  {
    IsDigit(c) || 'a' <= c <= 'f' || 'A' <= c <= 'F'
  }

  /** The first position at or after `i` that does not hold a hexadecimal digit, or `|s|`. */
  function SkipHexDigits(s: string, i: nat): (j: nat)
    requires i <= |s|
    ensures i <= j <= |s|
    ensures forall k :: i <= k < j ==> IsHexDigit(s[k])
    ensures j < |s| ==> !IsHexDigit(s[j])
    decreases |s| - i
  {
    if i < |s| && IsHexDigit(s[i]) then SkipHexDigits(s, i + 1) else i
  }

  function HexDigitValue(c: char): (v: nat)
    requires IsHexDigit(c)
    ensures v < 16
  {
    if IsDigit(c) then c as int - '0' as int
    else if 'a' <= c <= 'f' then c as int - 'a' as int + 10
    else c as int - 'A' as int + 10
  }

  /** The value of a string of hexadecimal digits, most significant first. */
  function HexValue(d: string): (n: nat)
    requires forall i :: 0 <= i < |d| ==> IsHexDigit(d[i])
  {
    if |d| == 0 then 0
    else 16 * HexValue(d[..|d| - 1]) + HexDigitValue(d[|d| - 1])
  }

  /** `s[i..]` starts with `0x` or `0X`. */
  predicate HexPrefixed(s: string, i: nat)
  {
    i + 1 < |s| && s[i] == '0' && (s[i + 1] == 'x' || s[i + 1] == 'X')
  }

  /**
   * `parseInt(s)` without a radix: skip leading white space, read an
   * optional sign; after a `0x` or `0X` prefix read the longest run of
   * hexadecimal digits, otherwise the longest run of decimal digits.
   * `None` stands for `NaN` (no digit where one is needed); a result needs
   * a decimal digit somewhere in the text, and a negative one a minus sign.
   */
  function ParseInt(s: string): (r: Option<int>)
    ensures r.Some? ==> exists k :: 0 <= k < |s| && IsDigit(s[k])
    ensures r.Some? && r.value < 0 ==> exists k :: 0 <= k < |s| && s[k] == '-'
  {
    var i := SkipSpaces(s, 0);
    var signed := i < |s| && (s[i] == '-' || s[i] == '+');
    var start := if signed then i + 1 else i;
    if HexPrefixed(s, start) then
      var end := SkipHexDigits(s, start + 2);
      var digits := s[start + 2..end];
      assert forall k :: 0 <= k < |digits| ==> IsHexDigit(digits[k]);
      if end == start + 2 then None
      else if signed && s[i] == '-' then Some(0 - HexValue(digits))
      else Some(HexValue(digits))
    else
      var end := SkipDigits(s, start);
      var digits := s[start..end];
      assert forall k :: 0 <= k < |digits| ==> IsDigit(digits[k]);
      if end == start then None
      else if signed && s[i] == '-' then Some(0 - DigitsValue(digits))
      else Some(DigitsValue(digits))
  }

  lemma {:induction false} SkipHexDigitsFrom(d: string, i: nat)
    requires i <= |d| && forall k :: i <= k < |d| ==> IsHexDigit(d[k])
    ensures SkipHexDigits(d, i) == |d|
    decreases |d| - i
  {
    if i < |d| {
      SkipHexDigitsFrom(d, i + 1);
    }
  }

  /** `0x` followed by hexadecimal digits reads as their value in base 16. */
  lemma HexRead(d: string)
    requires |d| >= 1 && forall k :: 0 <= k < |d| ==> IsHexDigit(d[k])
    ensures ParseInt("0x" + d) == Some(HexValue(d))
  {
    var s := "0x" + d;
    assert SkipSpaces(s, 0) == 0;
    assert HexPrefixed(s, 0);
    SkipHexDigitsFrom(s, 2);
    assert s[2..|s|] == d;
  }

  /** `0x` with no hexadecimal digit after it is `NaN`, even though `0` alone is a number. */
  lemma HexPrefixAlone(t: string)
    requires |t| == 0 || !IsHexDigit(t[0])
    ensures ParseInt("0x" + t) == None
  {
    var s := "0x" + t;
    assert SkipSpaces(s, 0) == 0;
    assert HexPrefixed(s, 0);
    assert SkipHexDigits(s, 2) == 2 by {
      if |t| > 0 {
        assert s[2] == t[0];
      }
    }
  }

  /** The decimal numeral of `n`, without sign or leading zeros. */
  function Decimal(n: nat): (r: string)
    ensures |r| >= 1
    ensures forall i :: 0 <= i < |r| ==> IsDigit(r[i])
  {
    var d := ['0' + (n % 10) as char];
    if n < 10 then d else Decimal(n / 10) + d
  }

  lemma {:induction false} DecimalValue(n: nat)
    ensures DigitsValue(Decimal(n)) == n
  {
    if n >= 10 {
      DecimalValue(n / 10);
      var r := Decimal(n);
      assert r[..|r| - 1] == Decimal(n / 10);
    }
  }

  lemma {:induction false} SkipDigitsFrom(d: string, i: nat)
    requires i <= |d| && forall k :: i <= k < |d| ==> IsDigit(d[k])
    ensures SkipDigits(d, i) == |d|
    decreases |d| - i
  {
    if i < |d| {
      SkipDigitsFrom(d, i + 1);
    }
  }

  lemma DecimalNotSigned(n: nat)
    ensures !IsSpace(Decimal(n)[0]) && Decimal(n)[0] != '-' && Decimal(n)[0] != '+'
  {
    assert IsDigit(Decimal(n)[0]);
  }

  /** `parseInt` reads back a number written in decimal. */
  lemma ParseDecimal(n: nat)
    ensures ParseInt(Decimal(n)) == Some(n)
  {
    var d := Decimal(n);
    DecimalValue(n);
    SkipDigitsFrom(d, 0);
    DecimalNotSigned(n);
    assert !HexPrefixed(d, 0) by {
      if |d| > 1 { assert IsDigit(d[1]); }
    }
    assert d[0..|d|] == d;
  }

  /** ... and one written in decimal after a minus sign. */
  lemma ParseNegativeDecimal(n: nat)
    ensures ParseInt("-" + Decimal(n)) == Some(0 - n)
  {
    var d := Decimal(n);
    var t := "-" + d;
    DecimalValue(n);
    assert forall k :: 1 <= k < |t| ==> IsDigit(t[k]);
    SkipDigitsFrom(t, 1);
    assert !IsSpace(t[0]);
    assert !HexPrefixed(t, 1) by {
      if |t| > 2 { assert IsDigit(t[2]); }
    }
    assert t[1..|t|] == d;
  }

  /** The same, for any integer written as JavaScript prints it. */
  function IntText(n: int): (r: string)
  {
    if n < 0 then "-" + Decimal(-n) else Decimal(n)
  }

  lemma ParseIntText(n: int)
    ensures ParseInt(IntText(n)) == Some(n)
  {
    if n < 0 {
      ParseNegativeDecimal(-n);
      assert IntText(n) == "-" + Decimal(-n);
    } else {
      ParseDecimal(n);
    }
  }
}
