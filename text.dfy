/** Character classes, case mapping, whitespace normalisation and number text shared by the
    parsers and pages. Strings are sequences of characters, one character per UTF-16 code unit
    of the JavaScript original; case mapping covers the ASCII letters only. */
module Text {
  import opened Wrappers

  /** JavaScript's `\s` (and the set `String.prototype.trim` removes): the WhiteSpace and
      LineTerminator code points of ECMAScript. */
  predicate IsSpace(c: char) {
    var n := c as int;
    n == 0x09 || n == 0x0A || n == 0x0B || n == 0x0C || n == 0x0D || n == 0x20
    || n == 0xA0 || n == 0x1680 || (0x2000 <= n <= 0x200A) || n == 0x2028 || n == 0x2029
    || n == 0x202F || n == 0x205F || n == 0x3000 || n == 0xFEFF
  }

  predicate IsDigit(c: char) { '0' <= c <= '9' }
  predicate IsUpper(c: char) { 'A' <= c <= 'Z' }
  predicate IsLower(c: char) { 'a' <= c <= 'z' }
  predicate IsLetter(c: char) { IsUpper(c) || IsLower(c) }
  /** A character of the regular-expression class `\w`, which decides `\b`. */
  predicate IsWordChar(c: char) { IsLetter(c) || IsDigit(c) || c == '_' }

  function LowerChar(c: char): char {
    if IsUpper(c) then (c as int + 32) as char else c
  }

  function UpperChar(c: char): char {
    if IsLower(c) then (c as int - 32) as char else c
  }

  /** `toLowerCase()` */
  function Lower(s: string): (r: string)
    ensures |r| == |s|
  {
    seq(|s|, i requires 0 <= i < |s| => LowerChar(s[i]))
  }

  /** Lower-casing twice is lower-casing once. */
  lemma LowerIdempotent(s: string)
    ensures Lower(Lower(s)) == Lower(s)
  {
    assert forall i :: 0 <= i < |s| ==> Lower(Lower(s))[i] == Lower(s)[i];
  }

  /** `toUpperCase()` */
  function Upper(s: string): (r: string)
    ensures |r| == |s|
  {
    seq(|s|, i requires 0 <= i < |s| => UpperChar(s[i]))
  }

  predicate StartsWith(s: string, prefix: string) {
    |prefix| <= |s| && s[..|prefix|] == prefix
  }

  predicate OccursAt(s: string, sub: string, i: nat) {
    i + |sub| <= |s| && s[i..i + |sub|] == sub
  }

  /** `s.includes(sub)` */
  predicate Contains(s: string, sub: string) {
    exists i :: 0 <= i <= |s| - |sub| && OccursAt(s, sub, i)
  }

  /** Some word of `words` occurs in `s` (`words.some(w => s.includes(w))`). */
  predicate ContainsAny(s: string, words: seq<string>) {
    if words == [] then false
    else Contains(s, words[0]) || ContainsAny(s, words[1..])
  }

  /** `s` starts with some word of `words` (`words.some(w => s.startsWith(w))`). */
  predicate StartsWithAny(s: string, words: seq<string>) {
    if words == [] then false
    else StartsWith(s, words[0]) || StartsWithAny(s, words[1..])
  }

  // ---------------------------------------------------------------------------------------
  // Whitespace

  /** Removes the leading whitespace (`trimStart`). */
  function TrimStart(s: string): (r: string)
    ensures |r| <= |s| && r == s[|s| - |r|..]
    ensures r == [] || !IsSpace(r[0])
    ensures |s| > 0 && !IsSpace(s[|s| - 1]) ==> |r| > 0
  {
    if s == [] || !IsSpace(s[0]) then s else TrimStart(s[1..])
  }

  /** Removes the trailing whitespace (`trimEnd`). */
  function TrimEnd(s: string): (r: string)
    ensures |r| <= |s| && r == s[..|r|]
    ensures r == [] || !IsSpace(r[|r| - 1])
  {
    if s == [] || !IsSpace(s[|s| - 1]) then s else TrimEnd(s[..|s| - 1])
  }

  /** `trim()` */
  /** Neither end of `s` is whitespace. */
  predicate Trimmed(s: string) {
    s == [] || (!IsSpace(s[0]) && !IsSpace(s[|s| - 1]))
  }

  function Trim(s: string): (r: string)
    ensures |r| <= |s|
    ensures Trimmed(r)
  {
    TrimEnd(TrimStart(s))
  }

  /** Every whitespace character is a plain space and no two spaces are adjacent. */
  ghost predicate SingleSpaced(s: string) {
    && (forall i :: 0 <= i < |s| && IsSpace(s[i]) ==> s[i] == ' ')
    && (forall i, j :: 0 <= i && j == i + 1 && j < |s| && s[i] == ' ' ==> s[j] != ' ')
  }

  /** What `replace(/\s+/g, " ").trim()` produces: single-spaced, with no space at either end. */
  ghost predicate Normalized(s: string) {
    SingleSpaced(s) && (|s| > 0 ==> s[0] != ' ' && s[|s| - 1] != ' ')
  }

  /** `s.replace(/\s+/g, " ")`: every maximal run of whitespace becomes one space. */
  function CollapseSpaces(s: string): (r: string)
    ensures |r| <= |s|
    ensures |s| > 0 ==> |r| > 0 && (if IsSpace(s[0]) then r[0] == ' ' else r[0] == s[0])
    ensures |s| > 0 && !IsSpace(s[|s| - 1]) ==> r[|r| - 1] == s[|s| - 1]
    decreases |s|
  {
    if s == [] then []
    else if IsSpace(s[0]) then " " + CollapseSpaces(TrimStart(s))
    else [s[0]] + CollapseSpaces(s[1..])
  }

  /** Collapsing leaves only single plain spaces. */
  lemma {:induction false} CollapseSpacesSingleSpaced(s: string)
    ensures SingleSpaced(CollapseSpaces(s))
    decreases |s|
  {
    if s != [] {
      if IsSpace(s[0]) {
        var rest := TrimStart(s);
        CollapseSpacesSingleSpaced(rest);
        var tail := CollapseSpaces(rest);
        assert tail != [] ==> tail[0] != ' ';
        assert CollapseSpaces(s) == " " + tail;
      } else {
        CollapseSpacesSingleSpaced(s[1..]);
        assert CollapseSpaces(s) == [s[0]] + CollapseSpaces(s[1..]);
      }
    }
  }

  /** `value.replace(/\s+/g, " ").trim()` */
  function NormalizeWhitespace(s: string): (r: string)
    ensures |r| <= |s|
    ensures |s| > 0 && !IsSpace(s[|s| - 1]) ==> |r| > 0 && r[|r| - 1] == s[|s| - 1]
  {
    NormalizeKeepsLast(s);
    TrimEnd(TrimStart(CollapseSpaces(s)))
  }

  lemma NormalizeKeepsLast(s: string)
    ensures |s| > 0 && !IsSpace(s[|s| - 1]) ==>
              var t := TrimStart(CollapseSpaces(s));
              |t| > 0 && t[|t| - 1] == s[|s| - 1] && TrimEnd(t) == t
  {
    if |s| > 0 && !IsSpace(s[|s| - 1]) {
      var c := CollapseSpaces(s);
      var t := TrimStart(c);
      assert t[|t| - 1] == c[|c| - 1];
    }
  }

  /** Normalising yields a normalised string. */
  lemma NormalizeWhitespaceNormalized(s: string)
    ensures Normalized(NormalizeWhitespace(s))
  {
    var c := CollapseSpaces(s);
    CollapseSpacesSingleSpaced(s);
    SuffixSingleSpaced(c, |c| - |TrimStart(c)|);
    PrefixSingleSpaced(TrimStart(c), |TrimEnd(TrimStart(c))|);
  }

  lemma SuffixSingleSpaced(s: string, k: nat)
    requires SingleSpaced(s) && k <= |s|
    ensures SingleSpaced(s[k..])
  {
    assert forall i :: 0 <= i < |s| - k ==> s[k..][i] == s[k + i];
  }

  lemma PrefixSingleSpaced(s: string, k: nat)
    requires SingleSpaced(s) && k <= |s|
    ensures SingleSpaced(s[..k])
  {
  }

  lemma {:induction false} CollapseSingleSpaced(s: string)
    requires SingleSpaced(s)
    ensures CollapseSpaces(s) == s
    decreases |s|
  {
    if s != [] {
      var t := s[1..];
      assert CollapseSpaces(t) == t by {
        SingleSpacedTail(s);
        CollapseSingleSpaced(t);
      }
      assert CollapseSpaces(s) == [s[0]] + CollapseSpaces(t) by {
        SingleSpacedTail(s);
        CollapseCons(s);
      }
      assert s == [s[0]] + t;
    }
  }

  lemma SingleSpacedTail(s: string)
    requires SingleSpaced(s) && s != []
    ensures SingleSpaced(s[1..])
    ensures IsSpace(s[0]) ==> s[0] == ' ' && (|s| == 1 || !IsSpace(s[1]))
  {
    SuffixSingleSpaced(s, 1);
  }

  /** A space followed by no other whitespace collapses to itself, as does any other
      character. */
  lemma CollapseCons(s: string)
    requires s != [] && (IsSpace(s[0]) ==> s[0] == ' ' && (|s| == 1 || !IsSpace(s[1])))
    ensures CollapseSpaces(s) == [s[0]] + CollapseSpaces(s[1..])
  {
    if IsSpace(s[0]) {
      assert TrimStart(s) == s[1..];
    }
  }

  /** Normalising is idempotent: a normalised string is left as it is. */
  lemma NormalizedFixpoint(s: string)
    requires Normalized(s)
    ensures NormalizeWhitespace(s) == s
  {
    CollapseSingleSpaced(s);
    assert s != [] ==> !IsSpace(s[0]) && !IsSpace(s[|s| - 1]);
  }

  /** A string of whitespace only normalises to the empty string. */
  lemma NormalizeBlank(s: string)
    requires forall i :: 0 <= i < |s| ==> IsSpace(s[i])
    ensures NormalizeWhitespace(s) == []
  {
    if s != [] {
      assert TrimStart(s) == [];
      assert CollapseSpaces(s) == " ";
    }
  }

  /** `s.split(sep)` for a one-character separator: at least one part, never the separator. */
  function Split(s: string, sep: char): (parts: seq<string>)
    ensures |parts| >= 1
    ensures forall k, i :: 0 <= k < |parts| && 0 <= i < |parts[k]| ==> parts[k][i] != sep && parts[k][i] in s
    decreases |s|
  {
    if s == [] then [""]
    else if s[0] == sep then [""] + Split(s[1..], sep)
    else
      var rest := Split(s[1..], sep);
      [[s[0]] + rest[0]] + rest[1..]
  }

  /** `s.replace(/c/g, "")` */
  function RemoveChar(s: string, c: char): (r: string)
    ensures |r| <= |s|
    ensures forall i :: 0 <= i < |r| ==> r[i] != c && r[i] in s
  {
    if s == [] then [] else (if s[0] == c then [] else [s[0]]) + RemoveChar(s[1..], c)
  }

  /** `s.replace(/\s+/g, "")`: every whitespace character removed, the rest kept in order. */
  function RemoveSpaces(s: string): (r: string)
    ensures |r| <= |s|
    ensures forall i :: 0 <= i < |r| ==> !IsSpace(r[i])
  {
    if s == [] then [] else (if IsSpace(s[0]) then [] else [s[0]]) + RemoveSpaces(s[1..])
  }

  lemma {:induction false} RemoveSpacesAppend(s: string, t: string)
    ensures RemoveSpaces(s + t) == RemoveSpaces(s) + RemoveSpaces(t)
  {
    if s != [] {
      assert (s + t)[1..] == s[1..] + t;
      RemoveSpacesAppend(s[1..], t);
    } else {
      assert s + t == t;
    }
  }

  // ---------------------------------------------------------------------------------------
  // Numbers as text

  function DigitChar(d: nat): char
    requires d < 10
  {
    ('0' as int + d) as char
  }

  function DigitValue(c: char): nat
    requires IsDigit(c)
  {
    c as int - '0' as int
  }

  predicate AllDigits(s: string) {
    forall i :: 0 <= i < |s| ==> IsDigit(s[i])
  }

  /** The decimal text of a natural number, as JavaScript writes an integer. */
  function NatToString(n: nat): (s: string)
    ensures |s| >= 1 && AllDigits(s)
    ensures |s| > 1 ==> s[0] != '0'
  {
    if n < 10 then [DigitChar(n)] else NatToString(n / 10) + [DigitChar(n % 10)]
  }

  /** The value of a string of decimal digits. */
  function DigitsValue(s: string): nat
    requires AllDigits(s)
  {
    if s == [] then 0 else DigitsValue(s[..|s| - 1]) * 10 + DigitValue(s[|s| - 1])
  }

  /** Reading back the digits of `NatToString` gives the number. */
  lemma {:induction false} NatToStringRoundTrip(n: nat)
    ensures DigitsValue(NatToString(n)) == n
  {
    if n >= 10 {
      var s := NatToString(n);
      assert s[..|s| - 1] == NatToString(n / 10);
      NatToStringRoundTrip(n / 10);
    }
  }

  /** Distinct numbers have distinct decimal texts. */
  lemma NatToStringInjective(m: nat, n: nat)
    requires NatToString(m) == NatToString(n)
    ensures m == n
  {
    NatToStringRoundTrip(m);
    NatToStringRoundTrip(n);
  }

  function Pow10(k: nat): (p: nat)
    ensures p >= 1
  {
    if k == 0 then 1 else 10 * Pow10(k - 1)
  }

  /** A token of the form `\d+(?:\.\d+)?`. */
  predicate IsNumeral(s: string) {
    && |s| > 0 && IsDigit(s[0]) && IsDigit(s[|s| - 1])
    && (forall i :: 0 <= i < |s| ==> IsDigit(s[i]) || s[i] == '.')
    && (forall i, j :: 0 <= i < j < |s| && s[i] == '.' && s[j] == '.' ==> i == j)
  }

  /** Index of the first `.` of `s`, or `|s|` when there is none. */
  function DotIndex(s: string): (k: nat)
    ensures k <= |s|
    ensures forall i :: 0 <= i < k ==> s[i] != '.'
    ensures k < |s| ==> s[k] == '.'
  {
    if s == [] then 0 else if s[0] == '.' then 0 else 1 + DotIndex(s[1..])
  }

  /** The exact decimal value of a numeral, which `parseFloat` approximates. */
  function NumeralValue(s: string): (v: real)
    requires IsNumeral(s)
    ensures v >= 0.0
  {
    var k := DotIndex(s);
    if k == |s| then DigitsValue(s) as real
    else
      var frac := s[k + 1..];
      var whole, digits, scale := DigitsValue(s[..k]) as real, DigitsValue(frac) as real, Pow10(|frac|) as real;
      assert digits / scale >= 0.0 by {
        assert digits >= 0.0 && scale >= 1.0;
        assert digits / scale * scale == digits;
      }
      whole + digits / scale
  }
}
