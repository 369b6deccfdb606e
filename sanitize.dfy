/** Input sanitisation and validation, and the demonstration password hash.
    The four removal passes are the source's regular expressions, matched
    ASCII-case-insensitively as the `i` flag does for these ASCII patterns, and
    applied as `String.prototype.replace` with the `g` flag applies them: one
    left-to-right scan that deletes each match and resumes after it. */
module Sanitize {
  import opened Wrappers
  import opened Seqs
  import opened JsString

  /* ---------------- removal passes ---------------- */

  /** The four patterns, in the order in which they are applied:
      `<script\b[^<]*(?:(?!<\/script>)<[^<]*)*<\/script>`, `javascript:`,
      `on\w+\s*=` and `data:`. */
  datatype Pattern = ScriptBlock | JavascriptScheme | EventHandler | DataScheme

  /** The class `\w`. */
  predicate IsWordChar(c: char) {
    'a' <= c <= 'z' || 'A' <= c <= 'Z' || '0' <= c <= '9' || c == '_'
  }

  /** The lower-case ASCII text `lit` occurs at index `i` of `s`, ignoring ASCII case. */
  predicate OccursIgnoringCaseAt(s: string, lit: string, i: int) {
    0 <= i && i + |lit| <= |s| && ToLowerAscii(s[i..i + |lit|]) == lit
  }

  // The literal texts of the patterns, lower case.
  const ScriptOpen: string := "<script"
  const ScriptClose: string := "</script>"
  const JavascriptText: string := "javascript:"
  const OnText: string := "on"
  const DataText: string := "data:"

  /** The number of consecutive word characters of `s` from index `i` on. */
  function WordRun(s: string, i: nat): (n: nat)
    requires i <= |s|
    ensures i + n <= |s|
    ensures forall k :: i <= k < i + n ==> IsWordChar(s[k])
    ensures i + n < |s| ==> !IsWordChar(s[i + n])
    decreases |s| - i
  {
    if i < |s| && IsWordChar(s[i]) then 1 + WordRun(s, i + 1) else 0
  }

  /** The number of consecutive `\s` characters of `s` from index `i` on. */
  function SpaceRun(s: string, i: nat): (n: nat)
    requires i <= |s|
    ensures i + n <= |s|
    ensures forall k :: i <= k < i + n ==> IsWhiteSpace(s[k])
    ensures i + n < |s| ==> !IsWhiteSpace(s[i + n])
    decreases |s| - i
  {
    if i < |s| && IsWhiteSpace(s[i]) then 1 + SpaceRun(s, i + 1) else 0
  }

  /** The first index at or after `from` where `lit` occurs, ignoring ASCII case. */
  function FirstOccurrence(s: string, lit: string, from: nat): (r: Option<nat>)
    requires from <= |s|
    ensures r.Some? ==> from <= r.value && OccursIgnoringCaseAt(s, lit, r.value)
    ensures r.Some? ==> forall k :: from <= k < r.value ==> !OccursIgnoringCaseAt(s, lit, k)
    ensures r.None? ==> forall k :: from <= k <= |s| ==> !OccursIgnoringCaseAt(s, lit, k)
    decreases |s| - from
  {
    if OccursIgnoringCaseAt(s, lit, from) then Some(from)
    else if from == |s| then None
    else FirstOccurrence(s, lit, from + 1)
  }

  /** The length of the match of `pat` that begins at index `i` of `s`, 0 when none
      begins there.
      - the script pattern needs `<script`, a word boundary, and then runs to the FIRST
        `</script>`: the repeated group may not consume a `<` that starts `</script>`,
        and `[^<]` cannot consume a `<` at all;
      - `on\w+\s*=` needs `on`, at least one word character and then optional white
        space and `=`; as `\w`, `\s` and `=` are disjoint, giving back characters never
        helps, so the maximal runs decide. */
  function MatchLength(pat: Pattern, s: string, i: nat): (n: nat)
    requires i <= |s|
    ensures i + n <= |s|
  {
    match pat
    case ScriptBlock =>
      if OccursIgnoringCaseAt(s, ScriptOpen, i) && (i + 7 == |s| || !IsWordChar(s[i + 7])) then
        match FirstOccurrence(s, ScriptClose, i + 7)
        case Some(j) => j + 9 - i
        case None => 0
      else 0
    case JavascriptScheme =>
      if OccursIgnoringCaseAt(s, JavascriptText, i) then 11 else 0
    case EventHandler =>
      if OccursIgnoringCaseAt(s, OnText, i) then
        var w := WordRun(s, i + 2);
        var sp := SpaceRun(s, i + 2 + w);
        if w > 0 && i + 2 + w + sp < |s| && s[i + 2 + w + sp] == '=' then 2 + w + sp + 1 else 0
      else 0
    case DataScheme =>
      if OccursIgnoringCaseAt(s, DataText, i) then 5 else 0
  }

  /** A character every match of the pattern contains. */
  function KeyChar(pat: Pattern): char {
    match pat
    case ScriptBlock => '<'
    case JavascriptScheme => ':'
    case EventHandler => '='
    case DataScheme => ':'
  }

  /** No pattern can match without its key character. */
  lemma MatchHoldsKeyChar(pat: Pattern, s: string, i: nat)
    requires i <= |s| && MatchLength(pat, s, i) > 0
    ensures KeyChar(pat) in s[i..i + MatchLength(pat, s, i)]
  {
    var n := MatchLength(pat, s, i);
    match pat
    case ScriptBlock =>
      assert LowerChar(s[i]) == ToLowerAscii(s[i..i + 7])[0];
      assert s[i..i + n][0] == '<';
    case JavascriptScheme =>
      assert LowerChar(s[i + 10]) == ToLowerAscii(s[i..i + 11])[10];
      assert s[i..i + n][10] == ':';
    case EventHandler =>
      var w := WordRun(s, i + 2);
      var sp := SpaceRun(s, i + 2 + w);
      assert s[i..i + n][2 + w + sp] == '=';
    case DataScheme =>
      assert LowerChar(s[i + 4]) == ToLowerAscii(s[i..i + 5])[4];
      assert s[i..i + n][4] == ':';
  }

  /** A matcher gives the length of the match that begins at index `i` of `s`, 0 when
      none begins there; no match runs past the end of the text. */
  ghost predicate IsMatcher(m: (string, nat) -> nat) {
    forall s: string, i: nat :: i <= |s| ==> i + m(s, i) <= |s|
  }

  /** The matcher of a pattern. */
  function MatcherOf(pat: Pattern): (m: (string, nat) -> nat)
    ensures IsMatcher(m)
    ensures forall s: string, i: nat :: i <= |s| ==> m(s, i) == MatchLength(pat, s, i)
  {
    (s: string, i: nat) => if i <= |s| then MatchLength(pat, s, i) else 0
  }

  /** The global `replace(regex, '')` from index `i` on: at each position either a
      match begins, and it is dropped, or the character is kept. */
  function RemoveFrom(m: (string, nat) -> nat, s: string, i: nat): (r: string)
    requires IsMatcher(m) && i <= |s|
    ensures |r| <= |s| - i
    decreases |s| - i
  {
    if i == |s| then []
    else
      var n := m(s, i);
      if n > 0 then RemoveFrom(m, s, i + n) else [s[i]] + RemoveFrom(m, s, i + 1)
  }

  function RemoveAll(pat: Pattern, s: string): string {
    RemoveFrom(MatcherOf(pat), s, 0)
  }

  /** A pass only deletes characters: what is left is a subsequence of what it read. */
  lemma {:induction false} RemoveFromIsSubsequence(m: (string, nat) -> nat, s: string, i: nat)
    requires IsMatcher(m) && i <= |s|
    ensures IsSubsequence(RemoveFrom(m, s, i), s[i..])
    decreases |s| - i
  {
    if i < |s| {
      var n := m(s, i);
      var rest := s[i..];
      if n > 0 {
        var r := RemoveFrom(m, s, i + n);
        assert RemoveFrom(m, s, i) == r;
        RemoveFromIsSubsequence(m, s, i + n);
        assert s[i + n..] == rest[n..];
        SubsequenceOfSuffix(r, rest, n);
      } else {
        var r := RemoveFrom(m, s, i + 1);
        assert RemoveFrom(m, s, i) == [s[i]] + r;
        RemoveFromIsSubsequence(m, s, i + 1);
        assert rest[1..] == s[i + 1..];
        KeepHead(s[i], r, rest);
      }
    }
  }

  /** Without its key character the pattern cannot match, and the pass changes nothing. */
  lemma {:induction false} RemoveFromWithoutKey(pat: Pattern, s: string, i: nat)
    requires i <= |s| && KeyChar(pat) !in s[i..]
    ensures RemoveFrom(MatcherOf(pat), s, i) == s[i..]
    decreases |s| - i
  {
    if i < |s| {
      if MatchLength(pat, s, i) > 0 {
        MatchHoldsKeyChar(pat, s, i);
        assert false;
      }
      assert s[i + 1..] == s[i..][1..];
      RemoveFromWithoutKey(pat, s, i + 1);
    }
  }

  /** `sanitizeHtml(html)`: the four passes in order. */
  function SanitizeHtml(html: string): string {
    RemoveAll(DataScheme, RemoveAll(EventHandler, RemoveAll(JavascriptScheme, RemoveAll(ScriptBlock, html))))
  }

  /** `sanitizeText(text)`: `trim` first, then the same four passes (the source
      repeats the chain of `sanitizeHtml`). */
  function SanitizeText(text: string): string {
    SanitizeHtml(Trim(text))
  }

  /** Sanitising only removes characters, never adds or reorders any. */
  lemma SanitizeHtmlRemovesOnly(html: string)
    ensures IsSubsequence(SanitizeHtml(html), html)
    ensures |SanitizeHtml(html)| <= |html|
  {
    var s1 := RemoveAll(ScriptBlock, html);
    var s2 := RemoveAll(JavascriptScheme, s1);
    var s3 := RemoveAll(EventHandler, s2);
    var s4 := RemoveAll(DataScheme, s3);
    assert html[0..] == html && s1[0..] == s1 && s2[0..] == s2 && s3[0..] == s3;
    RemoveFromIsSubsequence(MatcherOf(ScriptBlock), html, 0);
    RemoveFromIsSubsequence(MatcherOf(JavascriptScheme), s1, 0);
    RemoveFromIsSubsequence(MatcherOf(EventHandler), s2, 0);
    RemoveFromIsSubsequence(MatcherOf(DataScheme), s3, 0);
    SubsequenceTransitive(s2, s1, html);
    SubsequenceTransitive(s3, s2, html);
    SubsequenceTransitive(s4, s3, html);
  }

  /** Text with none of `<`, `:` and `=` comes out of every pass unchanged. */
  lemma SanitizeHtmlWithoutKeys(html: string)
    requires '<' !in html && ':' !in html && '=' !in html
    ensures SanitizeHtml(html) == html
  {
    assert html[0..] == html;
    RemoveFromWithoutKey(ScriptBlock, html, 0);
    RemoveFromWithoutKey(JavascriptScheme, html, 0);
    RemoveFromWithoutKey(EventHandler, html, 0);
    RemoveFromWithoutKey(DataScheme, html, 0);
  }

  /** `sanitizeText` never lengthens the trimmed text, and is just `trim` on text
      without `<`, `:` and `=`. */
  lemma SanitizeTextBounds(text: string)
    ensures IsSubsequence(SanitizeText(text), Trim(text))
    ensures |SanitizeText(text)| <= |Trim(text)| <= |text|
    ensures '<' !in text && ':' !in text && '=' !in text ==> SanitizeText(text) == Trim(text)
  {
    SanitizeHtmlRemovesOnly(Trim(text));
    TrimIsInfix(text);
    if '<' !in text && ':' !in text && '=' !in text {
      var t := Trim(text);
      assert forall c :: c in t ==> c in text;
      SanitizeHtmlWithoutKeys(t);
    }
  }

  /** A single pass does not remove what its own deletions bring together:
      `dadata:ta:` loses the inner `data:` and becomes `data:`, so the output of
      `sanitizeHtml` can still contain a pattern it removes (shown for the input
      `Reassembling`; `javajavascript:script:` behaves in the same way). */
  lemma OnePassCanReassemble(s: string)
    requires s == Reassembling
    ensures RemoveAll(DataScheme, s) == DataText
    ensures SanitizeHtml(s) == DataText
  {
    ReassemblingFacts(s);
    KeyFreeKept(ScriptBlock, s);
    TooShortKept(JavascriptScheme, s);
    KeyFreeKept(EventHandler, s);
    DataPassOnReassembling(s);
  }

  lemma ReassemblingFacts(s: string)
    requires s == Reassembling
    ensures '<' !in s && '=' !in s && |s| < |JavascriptText|
  {
  }

  lemma KeyFreeKept(pat: Pattern, s: string)
    requires KeyChar(pat) !in s
    ensures RemoveAll(pat, s) == s
  {
    assert s[0..] == s;
    RemoveFromWithoutKey(pat, s, 0);
  }

  /** A text shorter than `javascript:` has no match of that pattern. */
  lemma TooShortKept(pat: Pattern, s: string)
    requires pat == JavascriptScheme && |s| < |JavascriptText|
    ensures RemoveAll(pat, s) == s
  {
    assert s[0..] == s;
    NoMatchesKept(MatcherOf(pat), s, 0);
  }

  /** The sample input of `OnePassCanReassemble`. */
  const Reassembling: string := "dadata:ta:"

  lemma DataPassOnReassembling(s: string)
    requires s == Reassembling
    ensures RemoveAll(DataScheme, s) == DataText
  {
    // no match begins at 0 or 1: one character differs from the pattern in each window
    NotOccurringAt(s, DataText, 0, 2);
    NotOccurringAt(s, DataText, 1, 0);
    assert s[2..7] == DataText;
    LowerCaseUnchanged(DataText);
    var m := MatcherOf(DataScheme);
    assert m(s, 2) == 5;
    NoMatchesKept(m, s, 7);
    var r1 := RemoveFrom(m, s, 1);
    assert r1 == [s[1]] + s[7..];
    assert RemoveFrom(m, s, 0) == [s[0]] + r1;
    ReassemblingCuts(s);
  }

  /** What is left of the example once the inner `data:` is gone. */
  lemma ReassemblingCuts(s: string)
    requires s == Reassembling
    ensures [s[0]] + ([s[1]] + s[7..]) == DataText
  {
  }

  /** One differing character rules out an occurrence. */
  lemma NotOccurringAt(s: string, lit: string, i: int, m: int)
    requires 0 <= m < |lit|
    requires 0 <= i && i + m < |s| ==> LowerChar(s[i + m]) != lit[m]
    ensures !OccursIgnoringCaseAt(s, lit, i)
  {
  }

  lemma LowerCaseUnchanged(s: string)
    requires forall k :: 0 <= k < |s| ==> !('A' <= s[k] <= 'Z')
    ensures ToLowerAscii(s) == s
  {
  }

  /** Where no match begins, a pass keeps every character. */
  lemma {:induction false} NoMatchesKept(m: (string, nat) -> nat, s: string, i: nat)
    requires IsMatcher(m) && i <= |s|
    requires forall k :: i <= k < |s| ==> m(s, k) == 0
    ensures RemoveFrom(m, s, i) == s[i..]
    decreases |s| - i
  {
    if i < |s| {
      NoMatchesKept(m, s, i + 1);
      assert s[i..] == [s[i]] + s[i + 1..];
    }
  }

  /* ---------------- validateInput ---------------- */

  /** The three kinds `validateInput` knows. */
  datatype InputKind = Text | Email | Username

  /** A character of `[^\s@]`. */
  predicate IsPlainChar(c: char) {
    !IsWhiteSpace(c) && c != '@'
  }

  /** A string that `[^\s@]+` matches completely. */
  predicate IsPlainRun(s: string) {
    |s| > 0 && forall k :: 0 <= k < |s| ==> IsPlainChar(s[k])
  }

  /** `/^[^\s@]+@[^\s@]+\.[^\s@]+$/` matches `s`: `s` splits as run `@` run `.` run. */
  predicate MatchesEmailRegex(s: string) {
    exists at, dot :: 0 < at < dot < |s| && s[at] == '@' && s[dot] == '.' &&
      IsPlainRun(s[..at]) && IsPlainRun(s[at + 1..dot]) && IsPlainRun(s[dot + 1..])
  }

  /** A character of `[a-zA-Z0-9_-]`. */
  predicate IsUsernameChar(c: char) {
    IsWordChar(c) || c == '-'
  }

  /** `validateInput(input, type)`; the empty string is rejected for every kind. */
  function ValidateInput(input: string, kind: InputKind): (r: bool)
    ensures input == "" ==> !r
    ensures r ==> 1 <= |input| <= 10000
  {
    if input == "" then false
    else
      match kind
      case Text => 1 <= |input| <= 10000
      case Email => MatchesEmailRegex(input) && |input| <= 254
      case Username => 3 <= |input| <= 30 && forall k :: 0 <= k < |input| ==> IsUsernameChar(input[k])
  }

  predicate NoWhiteSpace(s: string) {
    forall k :: 0 <= k < |s| ==> !IsWhiteSpace(s[k])
  }

  /** `s` has an `@` at index `at`, with something before it, and no other `@`. */
  predicate SingleAtSign(s: string, at: int) {
    0 < at < |s| && s[at] == '@' && forall k :: 0 <= k < |s| && s[k] == '@' ==> k == at
  }

  /** The part after index `at` has a `.` that is neither its first nor its last character. */
  predicate DotInsideDomain(s: string, at: int) {
    exists dot :: 0 <= at && at + 1 < dot < |s| - 1 && s[dot] == '.'
  }

  /** The e-mail check in plain terms: at most 254 characters, no white space, exactly
      one `@` with something before it, and a `.` in the part after the `@` that is
      neither its first nor its last character. */
  lemma EmailAcceptedIff(s: string)
    ensures ValidateInput(s, Email) <==>
      |s| <= 254 && NoWhiteSpace(s) && exists at :: SingleAtSign(s, at) && DotInsideDomain(s, at)
  {
    if ValidateInput(s, Email) {
      EmailAcceptedShape(s);
    }
    if |s| <= 254 && NoWhiteSpace(s) && exists at :: SingleAtSign(s, at) && DotInsideDomain(s, at) {
      var at :| SingleAtSign(s, at) && DotInsideDomain(s, at);
      EmailShapeAccepted(s, at);
    }
  }

  lemma EmailAcceptedShape(s: string)
    requires ValidateInput(s, Email)
    ensures |s| <= 254 && NoWhiteSpace(s)
    ensures exists at :: SingleAtSign(s, at) && DotInsideDomain(s, at)
  {
    var at, dot :| 0 < at < dot < |s| && s[at] == '@' && s[dot] == '.' &&
      IsPlainRun(s[..at]) && IsPlainRun(s[at + 1..dot]) && IsPlainRun(s[dot + 1..]);
    forall k | 0 <= k < |s| && k != at
      ensures IsPlainChar(s[k])
    {
      if k < at { assert s[k] == s[..at][k]; }
      else if k < dot { assert s[k] == s[at + 1..dot][k - at - 1]; }
      else if k > dot { assert s[k] == s[dot + 1..][k - dot - 1]; }
    }
    assert SingleAtSign(s, at);
    assert DotInsideDomain(s, at) by {
      assert 0 <= at && at + 1 < dot < |s| - 1;
    }
  }

  lemma EmailShapeAccepted(s: string, at: int)
    requires |s| <= 254 && NoWhiteSpace(s) && SingleAtSign(s, at) && DotInsideDomain(s, at)
    ensures ValidateInput(s, Email)
  {
    var dot :| 0 <= at && at + 1 < dot < |s| - 1 && s[dot] == '.';
    assert IsPlainRun(s[..at]);
    assert IsPlainRun(s[at + 1..dot]);
    assert IsPlainRun(s[dot + 1..]);
  }

  /** How the kinds relate: a username or an e-mail address is also acceptable text,
      and no string is both a username and an e-mail address (a username has no `@`). */
  lemma ValidationKindsRelate(s: string)
    ensures ValidateInput(s, Username) ==> ValidateInput(s, Text)
    ensures ValidateInput(s, Email) ==> ValidateInput(s, Text)
    ensures !(ValidateInput(s, Username) && ValidateInput(s, Email))
  {
  }

  /* ---------------- hashPassword ---------------- */

  const TwoTo32: int := 0x1_0000_0000

  /** ECMAScript ToInt32: the 32-bit two's-complement integer congruent to `x`. */
  function ToInt32(x: int): (r: int)
    ensures -0x8000_0000 <= r < 0x8000_0000
    ensures (x - r) % TwoTo32 == 0
  {
    var m := x % TwoTo32;
    if m >= 0x8000_0000 then m - TwoTo32 else m
  }

  /** ToInt32 only depends on its argument modulo 2^32. */
  lemma ToInt32Congruent(x: int, y: int)
    requires (x - y) % TwoTo32 == 0
    ensures ToInt32(x) == ToInt32(y)
  {
    var k := (x - y) / TwoTo32;
    assert x == y + k * TwoTo32;
    assert x % TwoTo32 == y % TwoTo32;
  }

  /** One step of the loop: `hash = ((hash << 5) - hash) + char; hash = hash & hash`.
      `<<` works on ToInt32 of its operand and wraps; the subtraction and addition are
      exact; `hash & hash` applies ToInt32. */
  function HashStep(hash: int, c: char): int {
    var shifted := ToInt32(hash * 32);
    ToInt32(shifted - hash + c as int)
  }

  /** The value of `hash` after the loop has read `s`. */
  function HashCode(s: string): (h: int)
    ensures -0x8000_0000 <= h < 0x8000_0000
  {
    if s == [] then 0 else HashStep(HashCode(s[..|s| - 1]), s[|s| - 1])
  }

  /** The step is the classic `h * 31 + c` taken modulo 2^32. */
  lemma HashStepIsTimes31(hash: int, c: char)
    ensures HashStep(hash, c) == ToInt32(31 * hash + c as int)
  {
    var shifted := ToInt32(hash * 32);
    assert ((shifted - hash + c as int) - (31 * hash + c as int)) % TwoTo32 == 0 by {
      assert (shifted - hash + c as int) - (31 * hash + c as int) == shifted - hash * 32;
      assert (hash * 32 - shifted) % TwoTo32 == 0;
    }
    ToInt32Congruent(shifted - hash + c as int, 31 * hash + c as int);
  }

  function Abs(x: int): nat {
    if x < 0 then -x else x
  }

  /** `hashPassword(password)`: the loop folds `HashStep` over the characters, then
      `Math.abs(hash).toString(36)`. */
  method HashPassword(password: string) returns (r: string)
    ensures r == ToRadixString(Abs(HashCode(password)), 36)
  {
    var hash := 0;
    var i := 0;
    while i < |password|
      invariant 0 <= i <= |password|
      invariant hash == HashCode(password[..i])
    {
      var c := password[i];
      assert password[..i + 1][..i] == password[..i];
      hash := ToInt32(hash * 32) - hash + c as int;
      hash := ToInt32(hash);
      i := i + 1;
    }
    assert password[..i] == password;
    r := ToRadixString(Abs(hash), 36);
  }

  /** The hash is written in the digits `0-9a-z`, is never empty, and is "0" for the
      empty password. */
  lemma HashTextShape(password: string)
    ensures var r := ToRadixString(Abs(HashCode(password)), 36);
      r != [] && (forall i :: 0 <= i < |r| ==> IsRadixDigit(r[i])) &&
      (password == "" ==> r == "0")
  {
  }

  /** The fixed credential pair of `createSecureCredentials`. */
  datatype Credentials = Credentials(username: string, passwordHash: string)

  const DefaultUsername: string := "admin"
  const DefaultPassword: string := "password123"

  /** `createSecureCredentials()`: the user "admin" with the hash of "password123". */
  method CreateSecureCredentials() returns (r: Credentials)
    ensures r.username == DefaultUsername
    ensures r.passwordHash == ToRadixString(Abs(HashCode(DefaultPassword)), 36)
  {
    var hash := HashPassword(DefaultPassword);
    r := Credentials(DefaultUsername, hash);
  }
}
