/**
 * The book catalogue of BookCatalog.cs: titles normalised for comparison,
 * sorted in place by a Lomuto-partition QuickSort, indexed by their first two
 * letters in two 26x26 tables, then searched by binary search within an
 * index slice, with suggestions picked around the insertion point.
 *
 * The culture-sensitive `CompareTo` is the ordinal order `Text.Less`.
 */
module BookCatalog {
  import opened Text

  datatype Book = Book(original: string, normalized: string)

  /**
   * Book: keeps the title as given; the normalised form is the title with
   * its leading and trailing white space cut off, upper-cased.
   */
  function MakeBook(title: string): (b: Book)
    ensures b.original == title
    ensures b.normalized == [] || (!IsWhiteSpace(b.normalized[0]) && !IsWhiteSpace(b.normalized[|b.normalized| - 1]))
    ensures forall i | 0 <= i < |b.normalized| :: !IsAsciiLower(b.normalized[i])
    ensures b.normalized == [] <==> IsBlank(title)
    ensures exists i, j :: IsTrimmedSlice(title, i, j) && b.normalized == Upper(title[i..j])
  {
    TrimSlice(title);
    TrimBlank(title);
    UpperKeepsEnds(Trim(title));
    Book(title, Upper(Trim(title)))
  }

  /** The books made from the non-blank lines, in order (Load after the file has been read). */
  function LoadBooks(lines: seq<string>): (r: seq<Book>)
    ensures |r| <= |lines|
    ensures forall b | b in r :: b.original in lines && !IsBlank(b.original) && b == MakeBook(b.original)
    ensures forall l | l in lines && !IsBlank(l) :: MakeBook(l) in r
  {
    if lines == [] then []
    else
      var rest := LoadBooks(lines[1..]);
      assert forall l | l in lines[1..] :: l in lines;
      assert forall l | l in lines :: l == lines[0] || l in lines[1..];
      if IsBlank(lines[0]) then rest else [MakeBook(lines[0])] + rest
  }

  /** One line gives its book, or nothing when it is blank. */
  lemma LoadBooksLine(line: string)
    ensures LoadBooks([line]) == if IsBlank(line) then [] else [MakeBook(line)]
  {
  }

  /**
   * Loading goes line by line: the books of a + b are those of a followed by
   * those of b, so they keep the order of their lines, duplicates included.
   */
  lemma {:induction false} LoadBooksConcat(a: seq<string>, b: seq<string>)
    ensures LoadBooks(a + b) == LoadBooks(a) + LoadBooks(b)
  {
    if a == [] {
      assert a + b == b;
    } else {
      assert (a + b)[0] == a[0] && (a + b)[1..] == a[1..] + b;
      LoadBooksConcat(a[1..], b);
    }
  }

  // ---------------------------------------------------------------------
  // Sorting
  // ---------------------------------------------------------------------

  ghost predicate SortedBetween(s: seq<Book>, lo: int, hi: int)
    requires 0 <= lo && hi < |s|
  {
    forall i, j | lo <= i < j <= hi :: LessEq(s[i].normalized, s[j].normalized)
  }

  /** Swap: exchanges two entries. */
  method Swap(a: array<Book>, i: int, j: int)
    requires 0 <= i < a.Length && 0 <= j < a.Length
    modifies a
    ensures a[..] == old(a[..])[i := old(a[j])][j := old(a[i])]
    ensures multiset(a[..]) == multiset(old(a[..]))
  {
    var temp := a[i];
    a[i] := a[j];
    a[j] := temp;
  }

  /**
   * Partition: the last entry is the pivot; it ends at the returned position
   * with every entry to its left ordering below it and none to its right.
   * Only [left, right] changes, by a permutation.
   */
  method Partition(a: array<Book>, left: int, right: int) returns (p: int)
    requires 0 <= left <= right < a.Length
    modifies a
    ensures left <= p <= right
    ensures a[p] == old(a[right])
    ensures forall k | left <= k < p :: Less(a[k].normalized, a[p].normalized)
    ensures forall k | p < k <= right :: !Less(a[k].normalized, a[p].normalized)
    ensures multiset(a[..]) == multiset(old(a[..]))
    ensures forall k | 0 <= k < a.Length && !(left <= k <= right) :: a[k] == old(a[k])
  {
    ghost var a0 := a[..];
    var pivot := a[right];
    var i := left - 1;
    for j := left to right
      invariant left - 1 <= i < j
      invariant Partitioning(a0, a[..], left, right, i, j)
    {
      if Less(a[j].normalized, pivot.normalized) {
        ghost var s := a[..];
        i := i + 1;
        Swap(a, i, j);
        SwapIntoLower(a0, s, a[..], left, right, i, j);
      }
    }
    ghost var s := a[..];
    Swap(a, i + 1, right);
    p := i + 1;
    PivotIntoPlace(a0, s, a[..], left, p, right);
  }

  /**
   * Partition's loop invariant over the entries `s` reached from `a0`: the
   * pivot a0[right] is still last, [left, i] orders below it, (i, j) does
   * not, and only [left, right] has changed, by a permutation.
   */
  ghost predicate Partitioning(a0: seq<Book>, s: seq<Book>, left: int, right: int, i: int, j: int)
    requires 0 <= left && left - 1 <= i < j <= right < |a0|
  {
    |s| == |a0| && s[right] == a0[right]
    && (forall k | left <= k <= i :: Less(s[k].normalized, a0[right].normalized))
    && (forall k | i < k < j :: !Less(s[k].normalized, a0[right].normalized))
    && multiset(s) == multiset(a0)
    && (forall k | 0 <= k < |s| && !(left <= k <= right) :: s[k] == a0[k])
  }

  /** The swap that moves an entry below the pivot to the end of the lower part. */
  lemma SwapIntoLower(a0: seq<Book>, s: seq<Book>, t: seq<Book>, left: int, right: int, i: int, j: int)
    requires 0 <= left <= i <= j < right < |a0|
    requires Partitioning(a0, s, left, right, i - 1, j) && Less(s[j].normalized, a0[right].normalized)
    requires t == s[i := s[j]][j := s[i]] && multiset(t) == multiset(s)
    ensures Partitioning(a0, t, left, right, i, j + 1)
  {
  }

  /** The final swap that puts the pivot between the two parts. */
  lemma PivotIntoPlace(a0: seq<Book>, s: seq<Book>, t: seq<Book>, left: int, p: int, right: int)
    requires 0 <= left <= p <= right < |a0|
    requires Partitioning(a0, s, left, right, p - 1, right)
    requires t == s[p := s[right]][right := s[p]] && multiset(t) == multiset(s)
    ensures t[p] == a0[right]
    ensures forall k | left <= k < p :: Less(t[k].normalized, t[p].normalized)
    ensures forall k | p < k <= right :: !Less(t[k].normalized, t[p].normalized)
    ensures multiset(t) == multiset(a0)
    ensures forall k | 0 <= k < |t| && !(left <= k <= right) :: t[k] == a0[k]
  {
    forall k | p < k <= right ensures !Less(t[k].normalized, t[p].normalized) {
      if k == right {
        assert t[k] == s[p];
      }
    }
  }

  /** A change confined to [lo, hi] that keeps the multiset permutes that segment. */
  lemma PermutedSegment(s: seq<Book>, t: seq<Book>, lo: int, hi: int)
    requires 0 <= lo <= hi + 1 && hi < |s| == |t|
    requires multiset(s) == multiset(t)
    requires forall k | 0 <= k < |s| && !(lo <= k <= hi) :: s[k] == t[k]
    ensures multiset(s[lo..hi + 1]) == multiset(t[lo..hi + 1])
  {
    assert s == s[..lo] + s[lo..hi + 1] + s[hi + 1..];
    assert t == t[..lo] + t[lo..hi + 1] + t[hi + 1..];
    assert s[..lo] == t[..lo];
    assert s[hi + 1..] == t[hi + 1..];
    var X, Y := multiset(s[..lo]), multiset(s[hi + 1..]);
    assert multiset(s) == X + multiset(s[lo..hi + 1]) + Y;
    assert multiset(t) == X + multiset(t[lo..hi + 1]) + Y;
    MultisetCancel(X, Y, multiset(s[lo..hi + 1]), multiset(t[lo..hi + 1]));
  }

  lemma MultisetCancel(X: multiset<Book>, Y: multiset<Book>, A: multiset<Book>, B: multiset<Book>)
    requires X + A + Y == X + B + Y
    ensures A == B
  {
    forall x ensures A[x] == B[x] {
      assert (X + A + Y)[x] == (X + B + Y)[x];
    }
  }

  /** An entry of a permuted segment is an entry of the segment before. */
  lemma FromSegment(s: seq<Book>, t: seq<Book>, lo: int, hi: int, k: int) returns (m: int)
    requires 0 <= lo <= k <= hi < |s| == |t|
    requires multiset(s[lo..hi + 1]) == multiset(t[lo..hi + 1])
    ensures lo <= m <= hi && s[m] == t[k]
  {
    assert t[k] == t[lo..hi + 1][k - lo];
    assert t[k] in multiset(s[lo..hi + 1]);
    var i :| 0 <= i < hi + 1 - lo && s[lo..hi + 1][i] == t[k];
    m := lo + i;
  }

  /** Permuting a segment whose entries all order below `pivot` keeps them below it. */
  lemma PermutedBelow(s: seq<Book>, t: seq<Book>, lo: int, hi: int, pivot: string)
    requires 0 <= lo <= hi + 1 && hi < |s| == |t|
    requires multiset(s) == multiset(t)
    requires forall k | 0 <= k < |s| && !(lo <= k <= hi) :: s[k] == t[k]
    requires forall k | lo <= k <= hi :: Less(s[k].normalized, pivot)
    ensures forall k | lo <= k <= hi :: Less(t[k].normalized, pivot)
  {
    PermutedSegment(s, t, lo, hi);
    forall k | lo <= k <= hi ensures Less(t[k].normalized, pivot) {
      var m := FromSegment(s, t, lo, hi, k);
    }
  }

  /** Permuting a segment none of whose entries orders below `pivot` keeps it so. */
  lemma PermutedNotBelow(s: seq<Book>, t: seq<Book>, lo: int, hi: int, pivot: string)
    requires 0 <= lo <= hi + 1 && hi < |s| == |t|
    requires multiset(s) == multiset(t)
    requires forall k | 0 <= k < |s| && !(lo <= k <= hi) :: s[k] == t[k]
    requires forall k | lo <= k <= hi :: !Less(s[k].normalized, pivot)
    ensures forall k | lo <= k <= hi :: LessEq(pivot, t[k].normalized)
  {
    PermutedSegment(s, t, lo, hi);
    forall k | lo <= k <= hi ensures LessEq(pivot, t[k].normalized) {
      var m := FromSegment(s, t, lo, hi, k);
      LessTotal(t[k].normalized, pivot);
    }
  }

  /** Sorting both sides of a partitioned segment sorts the segment. */
  lemma QuickSortCombine(a1: seq<Book>, a2: seq<Book>, a3: seq<Book>, left: int, p: int, right: int)
    requires 0 <= left <= p <= right < |a1| == |a2| == |a3|
    requires forall k | left <= k < p :: Less(a1[k].normalized, a1[p].normalized)
    requires forall k | p < k <= right :: !Less(a1[k].normalized, a1[p].normalized)
    requires multiset(a1) == multiset(a2) && multiset(a2) == multiset(a3)
    requires forall k | 0 <= k < |a1| && !(left <= k <= p - 1) :: a2[k] == a1[k]
    requires forall k | 0 <= k < |a1| && !(p + 1 <= k <= right) :: a3[k] == a2[k]
    requires SortedBetween(a2, left, p - 1) && SortedBetween(a3, p + 1, right)
    ensures SortedBetween(a3, left, right)
  {
    var pivot := a1[p].normalized;
    PermutedBelow(a1, a2, left, p - 1, pivot);
    PermutedNotBelow(a2, a3, p + 1, right, pivot);
    assert a3[p] == a1[p];
    forall i, j | left <= i < j <= right ensures LessEq(a3[i].normalized, a3[j].normalized) {
      if i < p && p < j {
        LessLessEqTransitive(a3[i].normalized, pivot, a3[j].normalized);
      }
    }
  }

  /** QuickSort: sorts [left, right] in ascending order, permuting only that segment. */
  method QuickSort(a: array<Book>, left: int, right: int)
    requires 0 <= left && right < a.Length
    modifies a
    ensures SortedBetween(a[..], left, right)
    ensures multiset(a[..]) == multiset(old(a[..]))
    ensures forall k | 0 <= k < a.Length && !(left <= k <= right) :: a[k] == old(a[k])
    decreases right - left
  {
    if left < right {
      var p := Partition(a, left, right);
      ghost var a1 := a[..];
      QuickSort(a, left, p - 1);
      ghost var a2 := a[..];
      QuickSort(a, p + 1, right);
      QuickSortCombine(a1, a2, a[..], left, p, right);
    }
  }

  // ---------------------------------------------------------------------
  // Two-letter index
  // ---------------------------------------------------------------------

  /** LetterIndex: a letter's position in the alphabet, either case; 0 for any other character. */
  function LetterIndex(c: char): (r: int)
    ensures 0 <= r < 26
    ensures IsAsciiUpper(c) ==> r == c as int - 'A' as int
    ensures IsAsciiLower(c) ==> r == c as int - 'a' as int
    ensures !IsAsciiUpper(c) && !IsAsciiLower(c) ==> r == 0
  {
    var upper := UpperChar(c);
    if 'A' <= upper <= 'Z' then upper as int - 'A' as int else 0
  }

  /** The bucket of a normalised title or query: its first two characters, 'A' for a missing one. */
  function BucketOf(norm: string): (int, int) {
    (LetterIndex(if |norm| > 0 then norm[0] else 'A'), LetterIndex(if |norm| > 1 then norm[1] else 'A'))
  }

  /** Index of the first book in bucket (f, g), or -1. */
  function StartOf(s: seq<Book>, f: int, g: int): int {
    if s == [] then -1
    else
      var p := StartOf(s[..|s| - 1], f, g);
      if p != -1 then p else if BucketOf(s[|s| - 1].normalized) == (f, g) then |s| - 1 else -1
  }

  /** One past the index of the last book in bucket (f, g), or -1. */
  function EndOf(s: seq<Book>, f: int, g: int): int {
    if s == [] then -1
    else if BucketOf(s[|s| - 1].normalized) == (f, g) then |s|
    else EndOf(s[..|s| - 1], f, g)
  }

  /**
   * A bucket is (-1, -1) exactly when no book falls in it; otherwise its
   * start is the first such book, its end one past the last, and every book
   * of the bucket lies in [start, end).
   */
  lemma {:induction false} BucketBounds(s: seq<Book>, f: int, g: int)
    ensures StartOf(s, f, g) == -1 <==> EndOf(s, f, g) == -1
    ensures StartOf(s, f, g) == -1 <==> forall i | 0 <= i < |s| :: BucketOf(s[i].normalized) != (f, g)
    ensures StartOf(s, f, g) != -1 ==>
      && 0 <= StartOf(s, f, g) < EndOf(s, f, g) <= |s|
      && BucketOf(s[StartOf(s, f, g)].normalized) == (f, g)
      && BucketOf(s[EndOf(s, f, g) - 1].normalized) == (f, g)
    ensures forall i | 0 <= i < |s| && BucketOf(s[i].normalized) == (f, g) :: StartOf(s, f, g) <= i < EndOf(s, f, g)
  {
    if s != [] {
      var init := s[..|s| - 1];
      BucketBounds(init, f, g);
      forall i | 0 <= i < |init| ensures init[i] == s[i] { }
    }
  }

  ghost predicate IndexMatches(s: seq<Book>, start: array2<int>, end: array2<int>)
    reads start, end
    requires start.Length0 == 26 && start.Length1 == 26 && end.Length0 == 26 && end.Length1 == 26
  {
    forall f, g | 0 <= f < 26 && 0 <= g < 26 :: start[f, g] == StartOf(s, f, g) && end[f, g] == EndOf(s, f, g)
  }

  /** BuildIndex: fills both 26x26 tables with each bucket's start and exclusive end. */
  method BuildIndex(books: array<Book>) returns (start: array2<int>, end: array2<int>)
    ensures fresh(start) && fresh(end)
    ensures start.Length0 == 26 && start.Length1 == 26 && end.Length0 == 26 && end.Length1 == 26
    ensures IndexMatches(books[..], start, end)
  {
    start := new int[26, 26];
    end := new int[26, 26];
    for i := 0 to 26
      invariant forall f, g | 0 <= f < i && 0 <= g < 26 :: start[f, g] == -1 && end[f, g] == -1
    {
      for j := 0 to 26
        invariant forall f, g | 0 <= f < i && 0 <= g < 26 :: start[f, g] == -1 && end[f, g] == -1
        invariant forall g | 0 <= g < j :: start[i, g] == -1 && end[i, g] == -1
      {
        start[i, j] := -1;
        end[i, j] := -1;
      }
    }
    for i := 0 to books.Length
      invariant IndexMatches(books[..i], start, end)
    {
      var norm := books[i].normalized;
      var first := LetterIndex(if |norm| > 0 then norm[0] else 'A');
      var second := LetterIndex(if |norm| > 1 then norm[1] else 'A');
      assert books[..i + 1][..i] == books[..i];
      if start[first, second] == -1 {
        start[first, second] := i;
      }
      end[first, second] := i + 1;
    }
    assert books[..books.Length] == books[..];
  }

  // ---------------------------------------------------------------------
  // Suggestion order around an insertion point
  // ---------------------------------------------------------------------

  /**
   * Indices below `before` and from `after` on, within [s, e), taken
   * alternately: one before, one after, and so on until both sides run out.
   */
  function Alternate(before: int, after: int, s: int, e: int): seq<int>
    decreases (if before >= s then before - s + 1 else 0) + (if after < e then e - after else 0)
  {
    if before >= s then
      [before] + (if after < e then [after] + Alternate(before - 1, after + 1, s, e) else Alternate(before - 1, after, s, e))
    else if after < e then [after] + Alternate(before, after + 1, s, e)
    else []
  }

  ghost predicate Distinct(q: seq<int>) {
    forall i, j | 0 <= i < j < |q| :: q[i] != q[j]
  }

  /** The alternating order lists every index of [s, before] and [after, e) exactly once. */
  lemma {:induction false} AlternateCovers(before: int, after: int, s: int, e: int)
    requires before < after
    ensures forall x :: x in Alternate(before, after, s, e) <==> (s <= x <= before || after <= x < e)
    ensures Distinct(Alternate(before, after, s, e))
    decreases (if before >= s then before - s + 1 else 0) + (if after < e then e - after else 0)
  {
    var q := Alternate(before, after, s, e);
    if before >= s {
      if after < e {
        AlternateCovers(before - 1, after + 1, s, e);
        var r := Alternate(before - 1, after + 1, s, e);
        assert q == [before, after] + r;
        forall i, j | 0 <= i < j < |q| ensures q[i] != q[j] {
          if i >= 2 { assert q[i] == r[i - 2] && q[j] == r[j - 2]; }
          else if j >= 2 { assert q[j] in r; }
        }
      } else {
        AlternateCovers(before - 1, after, s, e);
        var r := Alternate(before - 1, after, s, e);
        assert q == [before] + r;
        forall i, j | 0 <= i < j < |q| ensures q[i] != q[j] {
          if i >= 1 { assert q[i] == r[i - 1] && q[j] == r[j - 1]; } else { assert q[j] in r; }
        }
      }
    } else if after < e {
      AlternateCovers(before, after + 1, s, e);
      var r := Alternate(before, after + 1, s, e);
      assert q == [after] + r;
      forall i, j | 0 <= i < j < |q| ensures q[i] != q[j] {
        if i >= 1 { assert q[i] == r[i - 1] && q[j] == r[j - 1]; } else { assert q[j] in r; }
      }
    }
  }

  /** A prefix of a duplicate-free order of positions in [s, e) is one too. */
  lemma PrefixPicks(picks: seq<int>, full: seq<int>, s: int, e: int)
    requires |picks| <= |full| && full[..|picks|] == picks
    requires Distinct(full) && forall x | x in full :: s <= x < e
    ensures Distinct(picks) && forall k | k in picks :: s <= k < e
  {
    forall k | k in picks ensures s <= k < e {
      var i :| 0 <= i < |picks| && picks[i] == k;
      assert full[..|picks|][i] == full[i];
      assert full[i] in full;
    }
    forall i, j | 0 <= i < j < |picks| ensures picks[i] != picks[j] {
      assert full[..|picks|][i] == full[i] && full[..|picks|][j] == full[j];
    }
  }

  lemma AlternateBefore(before: int, after: int, s: int, e: int)
    requires before >= s
    ensures Alternate(before, after, s, e) == [before] +
      (if after < e then [after] + Alternate(before - 1, after + 1, s, e) else Alternate(before - 1, after, s, e))
  {
  }

  lemma AlternateAfter(before: int, after: int, s: int, e: int)
    requires before < s
    ensures after >= e ==> Alternate(before, after, s, e) == []
    ensures after < e ==> Alternate(before, after, s, e) == [after] + Alternate(before, after + 1, s, e)
  {
  }

  /** Moving the head of the remaining order onto the picks keeps their concatenation. */
  lemma Shift(done: seq<int>, x: int, rest: seq<int>, full: seq<int>)
    requires done + ([x] + rest) == full
    ensures (done + [x]) + rest == full
  {
    assert done + ([x] + rest) == (done + [x]) + rest;
  }

  lemma PrefixOf(picks: seq<int>, rest: seq<int>, full: seq<int>)
    requires picks + rest == full
    ensures |picks| <= |full| && full[..|picks|] == picks
  {
    assert (picks + rest)[..|picks|] == picks;
  }

  /** Picks that stop at the maximum or at the end of the order are the order cut at the maximum. */
  lemma CutAt(picks: seq<int>, rest: seq<int>, full: seq<int>, maxSuggestions: int)
    requires picks + rest == full && |picks| <= Wanted(maxSuggestions)
    requires |picks| >= maxSuggestions || rest == []
    ensures |picks| == Min(Wanted(maxSuggestions), |full|) && picks == full[..|picks|]
  {
    PrefixOf(picks, rest, full);
  }

  /** A prefix of the alternating order around `pos` holds distinct positions of [s, e). */
  lemma AlternatePrefix(picks: seq<int>, pos: int, s: int, e: int)
    requires s <= pos <= e || pos == s
    requires |picks| <= |Alternate(pos - 1, pos, s, e)| && Alternate(pos - 1, pos, s, e)[..|picks|] == picks
    ensures Distinct(picks) && forall k | k in picks :: s <= k < e
  {
    var full := Alternate(pos - 1, pos, s, e);
    AlternateCovers(pos - 1, pos, s, e);
    PrefixPicks(picks, full, s, e);
  }

  function Min(a: int, b: int): int { if a < b then a else b }

  /** How many suggestions are wanted: a negative maximum asks for none. */
  function Wanted(maxSuggestions: int): nat { if maxSuggestions < 0 then 0 else maxSuggestions }

  // ---------------------------------------------------------------------
  // The catalogue
  // ---------------------------------------------------------------------

  class Catalog {
    var books: array<Book>
    var startIndex: array2<int>
    var endIndex: array2<int>

    ghost predicate Valid()
      reads this, books, startIndex, endIndex
    {
      && startIndex.Length0 == 26 && startIndex.Length1 == 26
      && endIndex.Length0 == 26 && endIndex.Length1 == 26
      && SortedBetween(books[..], 0, books.Length - 1)
      && IndexMatches(books[..], startIndex, endIndex)
    }

    /** The set-up steps of Run: load the non-blank lines, sort them, build the index. */
    constructor (lines: seq<string>)
      ensures Valid()
      ensures multiset(books[..]) == multiset(LoadBooks(lines))
    {
      var list := LoadBooks(lines);
      var a := new Book[|list|](i requires 0 <= i < |list| => list[i]);
      assert a[..] == list;
      QuickSort(a, 0, a.Length - 1);
      var start, end := BuildIndex(a);
      books := a;
      startIndex := start;
      endIndex := end;
    }

    /**
     * Lookup: (-1, -1) exactly when no book falls in the query's bucket;
     * otherwise the bucket's [start, end): its first and last entries are
     * in the bucket and every book of the bucket lies inside it.
     */
    function Lookup(prefix: string): (r: (int, int))
      reads this, books, startIndex, endIndex
      requires Valid()
      ensures var (f, g) := BucketOf(prefix);
        && (r == (-1, -1) <==> forall i | 0 <= i < books.Length :: BucketOf(books[i].normalized) != (f, g))
        && (r != (-1, -1) ==> 0 <= r.0 < r.1 <= books.Length)
        && (r != (-1, -1) ==> BucketOf(books[r.0].normalized) == (f, g) && BucketOf(books[r.1 - 1].normalized) == (f, g))
        && (forall i | 0 <= i < books.Length && BucketOf(books[i].normalized) == (f, g) :: r.0 <= i < r.1)
    {
      var first := LetterIndex(if |prefix| > 0 then prefix[0] else 'A');
      var second := LetterIndex(if |prefix| > 1 then prefix[1] else 'A');
      BucketBounds(books[..], first, second);
      var s := startIndex[first, second];
      var e := endIndex[first, second];
      if s == -1 || e == -1 then (-1, -1) else (s, e)
    }

    /**
     * BinarySearchSlice: -1 or an index in [s, e) holding the query; on the
     * sorted catalogue it returns -1 only when no entry of [s, e) matches.
     */
    method BinarySearchSlice(s: int, e: int, queryNorm: string) returns (idx: int)
      requires Valid()
      requires 0 <= s && e <= books.Length
      ensures idx == -1 || (s <= idx < e && books[idx].normalized == queryNorm)
      ensures idx == -1 <==> forall k | s <= k < e :: books[k].normalized != queryNorm
    {
      var left := s;
      var right := e - 1;
      while left <= right
        invariant s <= left && right < e
        invariant forall k | s <= k < e && books[k].normalized == queryNorm :: left <= k <= right
        decreases right - left
      {
        var mid := (left + right) / 2;
        var cmp := CompareOrdinal(books[mid].normalized, queryNorm);
        if cmp == 0 {
          return mid;
        } else if cmp < 0 {
          forall k | s <= k <= mid ensures Less(books[k].normalized, queryNorm) {
            if k < mid { LessEqLessTransitive(books[k].normalized, books[mid].normalized, queryNorm); }
          }
          left := mid + 1;
        } else {
          CompareOrdinalAntisymmetric(books[mid].normalized, queryNorm);
          forall k | mid <= k < e ensures Less(queryNorm, books[k].normalized) {
            if mid < k { LessLessEqTransitive(queryNorm, books[mid].normalized, books[k].normalized); }
          }
          right := mid - 1;
        }
      }
      return -1;
    }

    /** The first position of [pos, e) whose title does not order below the query, or e. */
    function InsertionPoint(pos: int, e: int, queryNorm: string): (r: int)
      reads this, books
      requires 0 <= pos && e <= books.Length
      ensures pos <= e ==> pos <= r <= e
      ensures pos > e ==> r == pos
      ensures forall k | pos <= k < r :: Less(books[k].normalized, queryNorm)
      ensures r < e ==> !Less(books[r].normalized, queryNorm)
      decreases e - pos
    {
      if pos >= e || !Less(books[pos].normalized, queryNorm) then pos
      else InsertionPoint(pos + 1, e, queryNorm)
    }

    /** The insertion-point scan of ShowSliceSuggestions. */
    method FindInsertionPoint(s: int, e: int, queryNorm: string) returns (pos: int)
      requires 0 <= s && e <= books.Length
      ensures pos == InsertionPoint(s, e, queryNorm)
    {
      pos := s;
      while pos < e && Less(books[pos].normalized, queryNorm)
        invariant s <= pos && (s <= e ==> pos <= e)
        invariant InsertionPoint(s, e, queryNorm) == InsertionPoint(pos, e, queryNorm)
        decreases e - pos
      {
        pos := pos + 1;
      }
    }

    /**
     * The selection of ShowSliceSuggestions: the positions whose titles are
     * shown, taken alternately before and after the insertion point and cut at
     * the maximum. They are distinct positions of [s, e).
     */
    method SliceSuggestions(s: int, e: int, queryNorm: string, maxSuggestions: int) returns (picks: seq<int>)
      requires 0 <= s && e <= books.Length
      ensures var full := Alternate(InsertionPoint(s, e, queryNorm) - 1, InsertionPoint(s, e, queryNorm), s, e);
        && |picks| == Min(Wanted(maxSuggestions), |full|)
        && picks == full[..|picks|]
      ensures Distinct(picks)
      ensures forall k | k in picks :: s <= k < e
    {
      var pos := FindInsertionPoint(s, e, queryNorm);
      ghost var full := Alternate(pos - 1, pos, s, e);
      ghost var rest := full;
      var before := pos - 1;
      var after := pos;
      picks := [];
      while |picks| < maxSuggestions && (before >= s || after < e)
        invariant before < after
        invariant rest == Alternate(before, after, s, e)
        invariant picks + rest == full
        invariant |picks| <= Wanted(maxSuggestions)
        decreases (if before >= s then before - s + 1 else 0) + (if after < e then e - after else 0)
      {
        if before >= s {
          AlternateBefore(before, after, s, e);
          Shift(picks, before, rest[1..], full);
          picks := picks + [before];
          rest := rest[1..];
          before := before - 1;
        } else {
          AlternateAfter(before, after, s, e);
        }
        if |picks| >= maxSuggestions {
          break;
        }
        if after < e {
          assert rest == [after] + Alternate(before, after + 1, s, e);
          Shift(picks, after, rest[1..], full);
          picks := picks + [after];
          rest := rest[1..];
          after := after + 1;
        }
      }
      if |picks| < maxSuggestions {
        AlternateAfter(before, after, s, e);
      }
      CutAt(picks, rest, full, maxSuggestions);
      AlternatePrefix(picks, pos, s, e);
    }

    /** The selection of ShowGlobalSuggestions: the first titles of the catalogue, at most the maximum. */
    method GlobalSuggestions(queryNorm: string, maxSuggestions: int) returns (titles: seq<string>)
      ensures |titles| == Min(Wanted(maxSuggestions), books.Length)
      ensures forall i | 0 <= i < |titles| :: titles[i] == books[i].original
    {
      titles := [];
      var idx := 0;
      while idx < books.Length && |titles| < maxSuggestions
        invariant 0 <= idx <= books.Length
        invariant |titles| == idx && idx <= Wanted(maxSuggestions)
        invariant forall i | 0 <= i < idx :: titles[i] == books[i].original
      {
        titles := titles + [books[idx].original];
        idx := idx + 1;
      }
    }
  }
}
