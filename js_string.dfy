/** The few ECMAScript string operations the blog relies on, over `seq<char>`:
    `trim`, the `\s` class, ASCII `toLowerCase`, `includes`, `parseInt(s, 10)` and
    the decimal form of a non-negative integer (`Number.prototype.toString()`). */
module JsString {
  import opened Wrappers

  /** ECMAScript WhiteSpace and LineTerminator code points: what `trim`, `\s` and
      `parseInt` skip. */
  predicate IsWhiteSpace(c: char) {
    c == '\t' || c == '\n' || c == '\U{B}' || c == '\U{C}' || c == '\r' || c == ' ' ||
    c == '\U{A0}' || c == '\U{1680}' || ('\U{2000}' <= c <= '\U{200A}') ||
    c == '\U{2028}' || c == '\U{2029}' || c == '\U{202F}' || c == '\U{205F}' ||
    c == '\U{3000}' || c == '\U{FEFF}'
  }

  predicate AllWhiteSpace(s: string) {
    forall i :: 0 <= i < |s| ==> IsWhiteSpace(s[i])
  }

  /** `s.trimStart()`: drops the leading white space, nothing else. */
  function TrimStart(s: string): (r: string)
    ensures |r| <= |s| && r == s[|s| - |r|..]
    ensures AllWhiteSpace(s[..|s| - |r|])
    ensures r != [] ==> !IsWhiteSpace(r[0])
  {
    if |s| > 0 && IsWhiteSpace(s[0]) then
      var r := TrimStart(s[1..]);
      assert s[..|s| - |r|] == [s[0]] + s[1..][..|s| - 1 - |r|];
      r
    else s
  }

  /** `s.trimEnd()`: drops the trailing white space, nothing else. */
  function TrimEnd(s: string): (r: string)
    ensures |r| <= |s| && r == s[..|r|]
    ensures AllWhiteSpace(s[|r|..])
    ensures r != [] ==> !IsWhiteSpace(r[|r| - 1])
  {
    if |s| > 0 && IsWhiteSpace(s[|s| - 1]) then
      var r := TrimEnd(s[..|s| - 1]);
      assert s[|r|..] == s[..|s| - 1][|r|..] + [s[|s| - 1]];
      r
    else s
  }

  /** `s.trim()`. */
  function Trim(s: string): string {
    TrimEnd(TrimStart(s))
  }

  /** `trim` cuts out one contiguous piece of `s`: only white space is removed, from
      both ends, and the piece neither starts nor ends with white space. */
  lemma TrimIsInfix(s: string)
    ensures exists i, j :: 0 <= i <= j <= |s| && Trim(s) == s[i..j] &&
                           AllWhiteSpace(s[..i]) && AllWhiteSpace(s[j..])
    ensures Trim(s) != [] ==> !IsWhiteSpace(Trim(s)[0]) && !IsWhiteSpace(Trim(s)[|Trim(s)| - 1])
  {
    var i, j := TrimCut(s);
    TrimEnds(s);
  }

  /** Where `trim` cuts `s`. */
  lemma TrimCut(s: string) returns (i: nat, j: nat)
    ensures i <= j <= |s| && Trim(s) == s[i..j]
    ensures AllWhiteSpace(s[..i]) && AllWhiteSpace(s[j..])
  {
    var t := TrimStart(s);
    var u := TrimEnd(t);
    i, j := |s| - |t|, |s| - |t| + |u|;
    PrefixOfSuffix(s, t, u);
    assert Trim(s) == u;
    assert s[j..] == t[|u|..];
  }

  /** What `trim` keeps neither starts nor ends with white space. */
  lemma TrimEnds(s: string)
    ensures Trim(s) != [] ==> !IsWhiteSpace(Trim(s)[0]) && !IsWhiteSpace(Trim(s)[|Trim(s)| - 1])
  {
    var t := TrimStart(s);
    var u := TrimEnd(t);
    if u != [] {
      assert u[0] == t[0];
    }
  }

  /** A prefix `u` of a suffix `t` of `s` is the infix of `s` between them. */
  lemma PrefixOfSuffix(s: string, t: string, u: string)
    requires |t| <= |s| && t == s[|s| - |t|..]
    requires |u| <= |t| && u == t[..|u|]
    ensures u == s[|s| - |t|..|s| - |t| + |u|]
    ensures s[|s| - |t| + |u|..] == t[|u|..]
  {
  }

  /** A string trims to nothing exactly when it is all white space. */
  lemma TrimEmptyIff(s: string)
    ensures Trim(s) == [] <==> AllWhiteSpace(s)
  {
    var t := TrimStart(s);
    if Trim(s) == [] {
      assert s == s[..|s| - |t|] + t;
      assert AllWhiteSpace(t) by { assert t[0..] == t; }
    }
  }

  /** Upper-case ASCII letters become lower-case; every other character is kept. */
  function LowerChar(c: char): (r: char)
    ensures 'A' <= c <= 'Z' ==> r as int == c as int + 32
    ensures !('A' <= c <= 'Z') ==> r == c
  {
    if 'A' <= c <= 'Z' then (c as int + 32) as char else c
  }

  /** `s.toLowerCase()` restricted to ASCII letters. */
  function ToLowerAscii(s: string): (r: string)
    ensures |r| == |s|
    ensures forall i :: 0 <= i < |s| ==> r[i] == LowerChar(s[i])
  {
    seq(|s|, i requires 0 <= i < |s| => LowerChar(s[i]))
  }

  /** `needle` occurs in `hay` starting at index `i`. */
  predicate OccursAt(hay: string, needle: string, i: int) {
    0 <= i && i + |needle| <= |hay| && hay[i..i + |needle|] == needle
  }

  /** `hay.includes(needle)`. */
  predicate Includes(hay: string, needle: string) {
    exists i :: 0 <= i <= |hay| - |needle| && OccursAt(hay, needle, i)
  }

  /* ---------- parseInt(s, 10) and Number.prototype.toString(radix) ---------- */

  predicate IsDigit(c: char) {
    '0' <= c <= '9'
  }

  /** The digits `toString(radix)` writes: `0-9` then lower-case `a-z`. */
  predicate IsRadixDigit(c: char) {
    IsDigit(c) || 'a' <= c <= 'z'
  }

  /** The character for digit value `d`. */
  function DigitChar(d: nat): (c: char)
    requires d < 36
    ensures IsRadixDigit(c)
    ensures d < 10 <==> IsDigit(c)
  {
    if d < 10 then ('0' as int + d) as char else ('a' as int + d - 10) as char
  }

  /** The value of a radix digit; `DigitValue(DigitChar(d)) == d`. */
  function DigitValue(c: char): (d: nat)
    requires IsRadixDigit(c)
    ensures d < 36
  {
    if IsDigit(c) then c as int - '0' as int else c as int - 'a' as int + 10
  }

  /** The value of a string of digits in base `radix`, most significant first. */
  function RadixValue(ds: string, radix: nat): nat
    requires forall i :: 0 <= i < |ds| ==> IsRadixDigit(ds[i])
  {
    if ds == [] then 0
    else
      assert IsRadixDigit(ds[|ds| - 1]);
      RadixValue(ds[..|ds| - 1], radix) * radix + DigitValue(ds[|ds| - 1])
  }

  /** `n.toString(radix)` for a non-negative integer `n`. */
  function ToRadixString(n: nat, radix: nat): (r: string)
    requires 2 <= radix <= 36
    ensures r != []
    ensures forall i :: 0 <= i < |r| ==> IsRadixDigit(r[i])
    ensures radix <= 10 ==> forall i :: 0 <= i < |r| ==> IsDigit(r[i])
  {
    if n < radix then [DigitChar(n)]
    else
      DivMod(n, radix);
      ToRadixString(n / radix, radix) + [DigitChar(n % radix)]
  }

  /** Euclidean division by a base: the facts the digit recursion needs. */
  lemma DivMod(n: nat, radix: nat)
    requires 2 <= radix <= n
    ensures n == (n / radix) * radix + n % radix
    ensures 0 <= n % radix < radix
    ensures 0 < n / radix < n
  {
  }

  /** Round trip: reading back `n.toString(radix)` in the same base gives `n`, so
      different numbers have different strings. */
  lemma {:induction false} RadixStringValue(n: nat, radix: nat)
    requires 2 <= radix <= 36
    ensures RadixValue(ToRadixString(n, radix), radix) == n
  {
    if n >= radix {
      var r := ToRadixString(n, radix);
      DivMod(n, radix);
      assert r[..|r| - 1] == ToRadixString(n / radix, radix);
      RadixStringValue(n / radix, radix);
    }
  }

  /** `n.toString()`: the decimal form of a non-negative integer. */
  function DecimalString(n: nat): string {
    ToRadixString(n, 10)
  }

  /** The longest prefix of `s` made of decimal digits. */
  function DigitPrefix(s: string): (r: string)
    ensures |r| <= |s| && r == s[..|r|]
    ensures forall i :: 0 <= i < |r| ==> IsDigit(r[i])
    ensures |r| < |s| ==> !IsDigit(s[|r|])
  {
    if |s| > 0 && IsDigit(s[0]) then [s[0]] + DigitPrefix(s[1..]) else []
  }

  /** `parseInt(s, 10)`: skip leading white space, read an optional sign and the longest
      run of digits; `None` is `NaN` (no digit at all). Floating-point rounding of very
      long digit runs is not modelled. */
  function ParseInt(s: string): Option<int> {
    var t := TrimStart(s);
    var negative := |t| > 0 && t[0] == '-';
    var unsigned := if |t| > 0 && (t[0] == '-' || t[0] == '+') then t[1..] else t;
    var digits := DigitPrefix(unsigned);
    if digits == [] then None
    else
      assert forall i :: 0 <= i < |digits| ==> IsRadixDigit(digits[i]);
      var magnitude: int := RadixValue(digits, 10);
      Some(if negative then -magnitude else magnitude)
  }

  lemma {:induction false} DigitPrefixOfDigits(s: string)
    requires forall i :: 0 <= i < |s| ==> IsDigit(s[i])
    ensures DigitPrefix(s) == s
  {
    if s != [] {
      DigitPrefixOfDigits(s[1..]);
    }
  }

  /** Round trip: `parseInt(String(n), 10) == n` for every natural number `n`. */
  lemma ParseDecimalString(n: nat)
    ensures ParseInt(DecimalString(n)) == Some(n)
  {
    var r := DecimalString(n);
    assert TrimStart(r) == r by {
      assert IsDigit(r[0]);
    }
    DigitPrefixOfDigits(r);
    RadixStringValue(n, 10);
  }
}
