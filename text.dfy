/**
 * The string primitives the programs rely on, restricted to what the model needs.
 *
 * - Case mapping is ASCII only: `ToUpperInvariant`/`ToLowerInvariant` map the
 *   26 Latin letters and leave every other character alone.
 * - `StringComparison.OrdinalIgnoreCase` compares the upper-cased strings code
 *   unit by code unit, which is `CompareIgnoreCase` below.
 * - The culture-sensitive `string.CompareTo` and `List<string>.Sort()` are
 *   replaced by the ordinal order `CompareOrdinal`; the proofs use only the
 *   facts that it is a total order (lemmas at the end of this module).
 * - The regular-expression class `\w` is the predicate `IsWordChar`.
 */
module Text {

  // ---------------------------------------------------------------------
  // Characters
  // ---------------------------------------------------------------------

  predicate IsAsciiUpper(c: char) { 'A' <= c <= 'Z' }

  predicate IsAsciiLower(c: char) { 'a' <= c <= 'z' }

  function UpperChar(c: char): char {
    if IsAsciiLower(c) then (c as int - 32) as char else c
  }

  function LowerChar(c: char): char {
    if IsAsciiUpper(c) then (c as int + 32) as char else c
  }

  /** The characters `char.IsWhiteSpace` accepts that the model knows about. */
  predicate IsWhiteSpace(c: char) {
    c == ' ' || '\t' <= c <= '\r' || c == '\U{85}' || c == '\U{A0}'
  }

  predicate IsDigit(c: char) { '0' <= c <= '9' }

  /** The regular-expression class `\w`: letters, digits and the underscore. */
  predicate IsWordChar(c: char) {
    IsAsciiUpper(c) || IsAsciiLower(c) || IsDigit(c) || c == '_'
  }

  // ---------------------------------------------------------------------
  // Case mapping
  // ---------------------------------------------------------------------

  function Upper(s: string): (r: string)
    ensures |r| == |s|
    ensures forall i :: 0 <= i < |s| ==> r[i] == UpperChar(s[i])
  {
    seq(|s|, i requires 0 <= i < |s| => UpperChar(s[i]))
  }

  function Lower(s: string): (r: string)
    ensures |r| == |s|
    ensures forall i :: 0 <= i < |s| ==> r[i] == LowerChar(s[i])
  {
    seq(|s|, i requires 0 <= i < |s| => LowerChar(s[i]))
  }

  /** Upper-casing leaves no lower-case letter and keeps white space where it was. */
  lemma UpperKeepsEnds(s: string)
    ensures forall i | 0 <= i < |s| :: !IsAsciiLower(Upper(s)[i])
    ensures forall i | 0 <= i < |s| :: IsWhiteSpace(Upper(s)[i]) <==> IsWhiteSpace(s[i])
  {
  }

  /** No ASCII capital letter: what `ToLowerInvariant` produces. */
  predicate IsLowerCase(s: string) {
    forall i :: 0 <= i < |s| ==> !IsAsciiUpper(s[i])
  }

  /** Equality under `StringComparison.OrdinalIgnoreCase`. */
  predicate FoldEq(a: string, b: string) {
    Upper(a) == Upper(b)
  }

  lemma LowerIsLowerCase(s: string)
    ensures IsLowerCase(Lower(s))
  {
  }

  /** Case-insensitive equality of two lower-case strings is plain equality. */
  lemma FoldEqLowerCase(a: string, b: string)
    requires IsLowerCase(a) && IsLowerCase(b)
    ensures FoldEq(a, b) <==> a == b
  {
    if FoldEq(a, b) {
      assert |a| == |b|;
      forall i | 0 <= i < |a| ensures a[i] == b[i] {
        assert Upper(a)[i] == Upper(b)[i];
      }
    }
  }

  /** Lower-casing first does not change the case-insensitive class. */
  lemma FoldEqLower(s: string)
    ensures FoldEq(Lower(s), s)
  {
    assert Upper(Lower(s)) == Upper(s);
  }

  // ---------------------------------------------------------------------
  // Ordinal comparison
  // ---------------------------------------------------------------------

  /**
   * Ordinal (code unit by code unit) comparison; negative, zero or
   * positive as `a` orders before, equal to, or after `b`.
   */
  function CompareOrdinal(a: string, b: string): (r: int)
    ensures -1 <= r <= 1
    ensures r == 0 <==> a == b
    decreases |a|
  {
    if |a| == 0 then (if |b| == 0 then 0 else -1)
    else if |b| == 0 then 1
    else if a[0] < b[0] then -1
    else if a[0] > b[0] then 1
    else
      assert a == [a[0]] + a[1..] && b == [b[0]] + b[1..];
      CompareOrdinal(a[1..], b[1..])
  }

  /** `string.Compare(a, b, StringComparison.OrdinalIgnoreCase)`. */
  function CompareIgnoreCase(a: string, b: string): (r: int)
    ensures -1 <= r <= 1
    ensures r == 0 <==> FoldEq(a, b)
  {
    CompareOrdinal(Upper(a), Upper(b))
  }

  predicate Less(a: string, b: string) { CompareOrdinal(a, b) < 0 }

  predicate LessEq(a: string, b: string) { CompareOrdinal(a, b) <= 0 }

  lemma {:induction false} CompareOrdinalAntisymmetric(a: string, b: string)
    ensures CompareOrdinal(a, b) == -CompareOrdinal(b, a)
    decreases |a|
  {
    if |a| > 0 && |b| > 0 && a[0] == b[0] {
      CompareOrdinalAntisymmetric(a[1..], b[1..]);
    }
  }

  lemma {:induction false} CompareOrdinalTransitive(a: string, b: string, c: string)
    requires CompareOrdinal(a, b) < 0 && CompareOrdinal(b, c) < 0
    ensures CompareOrdinal(a, c) < 0
    decreases |a|
  {
    if |a| > 0 && |b| > 0 && |c| > 0 && a[0] == b[0] && b[0] == c[0] {
      CompareOrdinalTransitive(a[1..], b[1..], c[1..]);
    }
  }

  lemma LessEqTransitive(a: string, b: string, c: string)
    requires LessEq(a, b) && LessEq(b, c)
    ensures LessEq(a, c)
  {
    if a != b && b != c {
      CompareOrdinalTransitive(a, b, c);
    }
  }

  lemma LessLessEqTransitive(a: string, b: string, c: string)
    requires Less(a, b) && LessEq(b, c)
    ensures Less(a, c)
  {
    if b != c {
      CompareOrdinalTransitive(a, b, c);
    }
  }

  lemma LessEqLessTransitive(a: string, b: string, c: string)
    requires LessEq(a, b) && Less(b, c)
    ensures Less(a, c)
  {
    if a != b {
      CompareOrdinalTransitive(a, b, c);
    }
  }

  /** Ordinal order is total: of two different strings one is smaller. */
  lemma LessTotal(a: string, b: string)
    ensures Less(a, b) || a == b || Less(b, a)
    ensures !(Less(a, b) && Less(b, a))
  {
    CompareOrdinalAntisymmetric(a, b);
  }

  lemma CompareIgnoreCaseAntisymmetric(a: string, b: string)
    ensures CompareIgnoreCase(a, b) == -CompareIgnoreCase(b, a)
  {
    CompareOrdinalAntisymmetric(Upper(a), Upper(b));
  }

  /** Replacing an argument by a case-insensitively equal string changes nothing. */
  lemma CompareIgnoreCaseFold(a: string, a': string, b: string)
    requires FoldEq(a, a')
    ensures CompareIgnoreCase(a, b) == CompareIgnoreCase(a', b)
    ensures CompareIgnoreCase(b, a) == CompareIgnoreCase(b, a')
  {
  }

  // ---------------------------------------------------------------------
  // Trimming, blanks, prefixes and substrings
  // ---------------------------------------------------------------------

  function TrimStart(s: string): (r: string)
    ensures |r| <= |s| && r == s[|s| - |r|..]
    ensures r == [] || !IsWhiteSpace(r[0])
    ensures forall i :: 0 <= i < |s| - |r| ==> IsWhiteSpace(s[i])
  {
    if |s| > 0 && IsWhiteSpace(s[0]) then TrimStart(s[1..]) else s
  }

  function TrimEnd(s: string): (r: string)
    ensures |r| <= |s| && r == s[..|r|]
    ensures r == [] || !IsWhiteSpace(r[|r| - 1])
    ensures forall i :: |r| <= i < |s| ==> IsWhiteSpace(s[i])
  {
    if |s| > 0 && IsWhiteSpace(s[|s| - 1]) then TrimEnd(s[..|s| - 1]) else s
  }

  /** `string.Trim()`: leading and trailing white space removed. */
  function Trim(s: string): (r: string)
    ensures r == [] || (!IsWhiteSpace(r[0]) && !IsWhiteSpace(r[|r| - 1]))
  {
    TrimEnd(TrimStart(s))
  }

  /** `string.IsNullOrWhiteSpace` on a non-null string. */
  predicate IsBlank(s: string) {
    forall i :: 0 <= i < |s| ==> IsWhiteSpace(s[i])
  }

  lemma {:induction false} TrimStartBlank(s: string)
    ensures TrimStart(s) == [] <==> IsBlank(s)
  {
    if |s| > 0 && IsWhiteSpace(s[0]) {
      TrimStartBlank(s[1..]);
      if IsBlank(s[1..]) {
        forall i | 0 <= i < |s| ensures IsWhiteSpace(s[i]) {
          if i > 0 { assert s[i] == s[1..][i - 1]; }
        }
      }
    }
  }

  /** A string is blank exactly when trimming leaves nothing. */
  lemma TrimBlank(s: string)
    ensures Trim(s) == [] <==> IsBlank(s)
  {
    TrimStartBlank(s);
    var t := TrimStart(s);
    if t != [] {
      assert !IsWhiteSpace(t[0]);
    }
  }

  /**
   * s[i..j] is what trimming keeps: white space before i and from j on, and
   * a non-white first and last character when anything is kept.
   */
  predicate IsTrimmedSlice(s: string, i: int, j: int) {
    && 0 <= i <= j <= |s|
    && IsBlank(s[..i]) && IsBlank(s[j..])
    && (i < j ==> !IsWhiteSpace(s[i]) && !IsWhiteSpace(s[j - 1]))
  }

  lemma SplitAround(s: string, i: int, j: int)
    requires 0 <= i <= j <= |s|
    ensures s == s[..i] + (s[i..j] + s[j..])
  {
  }

  /** Trimming keeps one contiguous slice of the input. */
  lemma TrimSlice(s: string)
    ensures exists i, j :: IsTrimmedSlice(s, i, j) && Trim(s) == s[i..j]
  {
    var t := TrimStart(s);
    var i := |s| - |t|;
    var j := i + |TrimEnd(t)|;
    BlankPrefix(s, i);
    TrimEndTail(s, t, i, j);
    BlankSuffix(s, j);
    var r := s[i..j];
    assert r == Trim(s);
    if i < j {
      assert s[i] == r[0] && s[j - 1] == r[|r| - 1];
    }
    assert IsTrimmedSlice(s, i, j);
  }

  /** What TrimEnd cuts from the tail t = s[i..] of s is white space of s. */
  lemma TrimEndTail(s: string, t: string, i: int, j: int)
    requires 0 <= i <= |s| && t == s[i..] && j == i + |TrimEnd(t)|
    ensures j <= |s| && s[i..j] == TrimEnd(t)
    ensures forall k :: j <= k < |s| ==> IsWhiteSpace(s[k])
  {
    forall k | j <= k < |s| ensures IsWhiteSpace(s[k]) {
      assert s[k] == t[k - i];
    }
  }

  lemma BlankPrefix(s: string, i: int)
    requires 0 <= i <= |s| && forall k :: 0 <= k < i ==> IsWhiteSpace(s[k])
    ensures IsBlank(s[..i])
  {
  }

  lemma BlankSuffix(s: string, j: int)
    requires 0 <= j <= |s| && forall k :: j <= k < |s| ==> IsWhiteSpace(s[k])
    ensures IsBlank(s[j..])
  {
    assert forall k :: 0 <= k < |s[j..]| ==> s[j..][k] == s[j + k];
  }

  /** Ordinal `StartsWith`. */
  predicate StartsWith(s: string, prefix: string) {
    |prefix| <= |s| && s[..|prefix|] == prefix
  }

  /** Ordinal `string.Contains`: `sub` starts at some position of `s`. */
  predicate Contains(s: string, sub: string) {
    StartsWith(s, sub) || (|s| > 0 && Contains(s[1..], sub))
  }

  /** The characters of `s` for which `keep` holds, in order. */
  function KeepChars(s: string, keep: char -> bool): (r: string)
    ensures |r| <= |s|
    ensures forall i :: 0 <= i < |r| ==> keep(r[i])
    ensures forall c :: c in r <==> c in s && keep(c)
  {
    if s == [] then []
    else if keep(s[0]) then [s[0]] + KeepChars(s[1..], keep)
    else KeepChars(s[1..], keep)
  }

  /** A single character is kept exactly when `keep` holds for it. */
  lemma KeepCharsUnit(c: char, keep: char -> bool)
    ensures KeepChars([c], keep) == if keep(c) then [c] else []
  {
  }

  /** Filtering works piecewise, so the kept characters stay in order and count. */
  lemma {:induction false} KeepCharsConcat(a: string, b: string, keep: char -> bool)
    ensures KeepChars(a + b, keep) == KeepChars(a, keep) + KeepChars(b, keep)
  {
    if a == [] {
      assert a + b == b;
    } else {
      assert (a + b)[0] == a[0] && (a + b)[1..] == a[1..] + b;
      KeepCharsConcat(a[1..], b, keep);
    }
  }

  /** Nothing is kept from a string none of whose characters pass. */
  lemma KeepCharsNone(s: string, keep: char -> bool)
    requires forall i :: 0 <= i < |s| ==> !keep(s[i])
    ensures KeepChars(s, keep) == []
  {
  }
}
