/** The string primitives the task engine calls: ECMAScript `String.prototype.trim`,
    `toLowerCase` (on ASCII letters), `includes`, and the decimal rendering of a
    count inside a template literal. Strings are sequences of Unicode scalar values. */
module Text {

  /** ECMAScript WhiteSpace and LineTerminator code points: the characters
      `trim` removes from both ends. */
  predicate IsWhitespace(c: char) {
    || c == '\t' || c == '\n' || c == '\U{B}' || c == '\U{C}' || c == '\r'
    || c == ' ' || c == '\U{A0}' || c == '\U{1680}'
    || ('\U{2000}' <= c <= '\U{200A}')
    || c == '\U{2028}' || c == '\U{2029}' || c == '\U{202F}' || c == '\U{205F}'
    || c == '\U{3000}' || c == '\U{FEFF}'
  }

  ghost predicate AllWhitespace(s: string) {
    forall i :: 0 <= i < |s| ==> IsWhitespace(s[i])
  }

  /** Neither end of `s` is whitespace: what `trim` produces. */
  ghost predicate IsTrimmed(s: string) {
    s == [] || (!IsWhitespace(s[0]) && !IsWhitespace(s[|s| - 1]))
  }

  /** Length of the whitespace run at the start of `s`. */
  function LeadingWhitespace(s: string): (k: nat)
    ensures k <= |s|
    ensures forall i :: 0 <= i < k ==> IsWhitespace(s[i])
    ensures k < |s| ==> !IsWhitespace(s[k])
  {
    if s != [] && IsWhitespace(s[0]) then 1 + LeadingWhitespace(s[1..]) else 0
  }

  /** Length of the whitespace run at the end of `s`. */
  function TrailingWhitespace(s: string): (k: nat)
    ensures k <= |s|
    ensures forall i :: |s| - k <= i < |s| ==> IsWhitespace(s[i])
    ensures k < |s| ==> !IsWhitespace(s[|s| - 1 - k])
  {
    if s != [] && IsWhitespace(s[|s| - 1]) then 1 + TrailingWhitespace(s[..|s| - 1]) else 0
  }

  /** `s.trim()`: `s` without its leading and trailing whitespace. */
  function Trim(s: string): (r: string)
    ensures IsTrimmed(r)
    ensures r == [] <==> AllWhitespace(s)
    ensures LeadingWhitespace(s) + |r| <= |s|
    ensures r == s[LeadingWhitespace(s)..LeadingWhitespace(s) + |r|]
    ensures forall i :: LeadingWhitespace(s) + |r| <= i < |s| ==> IsWhitespace(s[i])
  {
    var rest := s[LeadingWhitespace(s)..];
    rest[..|rest| - TrailingWhitespace(rest)]
  }

  /** Trimming an already trimmed string gives it back unchanged. */
  lemma TrimOfTrimmed(s: string)
    requires IsTrimmed(s)
    ensures Trim(s) == s
  {
  }

  /** `trim` is idempotent. */
  lemma TrimIdempotent(s: string)
    ensures Trim(Trim(s)) == Trim(s)
  {
  }

  /** The ASCII part of `toLowerCase`: 'A'..'Z' map to 'a'..'z'. */
  function LowerChar(c: char): (d: char)
    ensures 'A' <= c <= 'Z' ==> d as int == c as int + 32
    ensures !('A' <= c <= 'Z') ==> d == c
  {
    if 'A' <= c <= 'Z' then (c as int + 32) as char else c
  }

  /** `s.toLowerCase()`, for ASCII letters. */
  function ToLower(s: string): (r: string)
    ensures |r| == |s|
    ensures forall i :: 0 <= i < |s| ==> r[i] == LowerChar(s[i])
  {
    if s == [] then [] else [LowerChar(s[0])] + ToLower(s[1..])
  }

  /** `needle` occurs in `hay` starting at position `i`. */
  ghost predicate OccursAt(hay: string, needle: string, i: int) {
    0 <= i && i + |needle| <= |hay| && hay[i..i + |needle|] == needle
  }

  /** `hay.includes(needle)`. */
  function Contains(hay: string, needle: string): (b: bool)
    ensures b <==> exists i :: OccursAt(hay, needle, i)
    decreases |hay|
  {
    if needle <= hay then
      assert OccursAt(hay, needle, 0);
      true
    else if hay == [] then
      false
    else
      var b := Contains(hay[1..], needle);
      assert forall i :: OccursAt(hay[1..], needle, i) <==> OccursAt(hay, needle, i + 1);
      assert forall i :: OccursAt(hay, needle, i) ==> i == 0 || OccursAt(hay[1..], needle, i - 1);
      b
  }

  /** `needle` occurs in `hay` at position `i` when letter case is ignored. */
  ghost predicate OccursAtIgnoringCase(hay: string, needle: string, i: int) {
    && 0 <= i && i + |needle| <= |hay|
    && forall k :: 0 <= k < |needle| ==> LowerChar(hay[i + k]) == LowerChar(needle[k])
  }

  /** Lower-casing both sides turns an exact occurrence into a case-insensitive one. */
  lemma OccursAtLowered(hay: string, needle: string, i: int)
    ensures OccursAt(ToLower(hay), ToLower(needle), i) <==> OccursAtIgnoringCase(hay, needle, i)
  {
  }

  /** `hay.toLowerCase().includes(needle.toLowerCase())` is exactly case-insensitive
      substring search. */
  lemma ContainsIgnoringCase(hay: string, needle: string)
    ensures Contains(ToLower(hay), ToLower(needle)) <==> exists i :: OccursAtIgnoringCase(hay, needle, i)
  {
    forall i ensures OccursAt(ToLower(hay), ToLower(needle), i) <==> OccursAtIgnoringCase(hay, needle, i) {
      OccursAtLowered(hay, needle, i);
    }
  }

  function DigitChar(d: nat): (c: char)
    requires d < 10
    ensures '0' <= c <= '9'
  {
    ('0' as int + d) as char
  }

  function DigitValue(c: char): (d: nat)
    requires '0' <= c <= '9'
    ensures d < 10
  {
    c as int - '0' as int
  }

  ghost predicate AllDigits(s: string) {
    forall i :: 0 <= i < |s| ==> '0' <= s[i] <= '9'
  }

  /** The decimal digits of `n`, as a template literal `${n}` renders a
      non-negative integer count. */
  function NatToString(n: nat): (s: string)
    ensures s != [] && AllDigits(s)
    ensures s[0] == '0' ==> n == 0 && s == "0"
  {
    if n < 10 then [DigitChar(n)] else NatToString(n / 10) + [DigitChar(n % 10)]
  }

  /** Reads a string of decimal digits back as a number. */
  function ParseNat(s: string): nat
    requires AllDigits(s)
  {
    if s == [] then 0 else 10 * ParseNat(s[..|s| - 1]) + DigitValue(s[|s| - 1])
  }

  /** The rendering of a count can be read back as the same count. */
  lemma {:induction false} ParseNatToString(n: nat)
    ensures ParseNat(NatToString(n)) == n
  {
    var s := NatToString(n);
    if n >= 10 {
      ParseNatToString(n / 10);
      assert s[..|s| - 1] == NatToString(n / 10);
    }
  }
}
