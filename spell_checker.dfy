/**
 * The spell checker of SpellChecker.cs. Its hash sets use the
 * OrdinalIgnoreCase comparer; every word the checker stores has been
 * lower-cased, so (lemma `Text.FoldEqLowerCase`) case-insensitive membership
 * is plain membership and the sets are modelled as `set<string>`.
 * File reads are replaced by their outcome: the lines or the text read, or
 * None when the read failed.
 */
module SpellCheck {
  import opened Wrappers
  import opened Text

  // ---------------------------------------------------------------------
  // Normalisation and tokenising
  // ---------------------------------------------------------------------

  /** NormalizeWord: blank gives ""; otherwise trimmed, non-word characters removed, lower-cased. */
  function NormalizeWord(word: string): (r: string)
    ensures IsLowerCase(r)
    ensures forall i :: 0 <= i < |r| ==> IsWordChar(r[i])
    ensures IsBlank(word) ==> r == []
    ensures r == Lower(KeepChars(word, IsWordChar))
  {
    KeepWordCharsIgnoresTrim(word);
    if IsBlank(word) then [] else Lower(KeepChars(Trim(word), IsWordChar))
  }

  /**
   * White space is never a word character, so trimming before the filter
   * changes nothing: the word's characters of `s`, in order, are kept.
   */
  lemma KeepWordCharsIgnoresTrim(s: string)
    ensures KeepChars(Trim(s), IsWordChar) == KeepChars(s, IsWordChar)
    ensures IsBlank(s) ==> KeepChars(s, IsWordChar) == []
  {
    TrimSlice(s);
    var i, j :| IsTrimmedSlice(s, i, j) && Trim(s) == s[i..j];
    var pre, mid, post := s[..i], s[i..j], s[j..];
    SplitAround(s, i, j);
    KeepCharsConcat(pre, mid + post, IsWordChar);
    KeepCharsConcat(mid, post, IsWordChar);
    BlankKeepsNoWordChars(pre);
    BlankKeepsNoWordChars(post);
    TrimBlank(s);
  }

  lemma BlankKeepsNoWordChars(s: string)
    requires IsBlank(s)
    ensures KeepChars(s, IsWordChar) == []
  {
    assert forall i :: 0 <= i < |s| ==> !IsWordChar(s[i]);
    KeepCharsNone(s, IsWordChar);
  }

  lemma {:induction false} KeepAll(s: string, keep: char -> bool)
    requires forall i :: 0 <= i < |s| ==> keep(s[i])
    ensures KeepChars(s, keep) == s
  {
    if s != [] {
      KeepAll(s[1..], keep);
      assert s == [s[0]] + s[1..];
    }
  }

  lemma TrimStartKeeps(r: string)
    requires r != [] && !IsWhiteSpace(r[0])
    ensures TrimStart(r) == r
  {
  }

  lemma TrimEndKeeps(r: string)
    requires r != [] && !IsWhiteSpace(r[|r| - 1])
    ensures TrimEnd(r) == r
  {
  }

  /** A string that neither starts nor ends with white space is its own trim. */
  lemma TrimKeeps(r: string)
    requires r != [] && !IsWhiteSpace(r[0]) && !IsWhiteSpace(r[|r| - 1])
    ensures Trim(r) == r
  {
    TrimStartKeeps(r);
    TrimEndKeeps(r);
  }

  lemma LowerLowerCase(r: string)
    requires IsLowerCase(r)
    ensures Lower(r) == r
  {
    assert forall i :: 0 <= i < |r| ==> Lower(r)[i] == r[i];
  }

  /** Normalising a normalised word changes nothing. */
  lemma NormalizeIdempotent(word: string)
    ensures NormalizeWord(NormalizeWord(word)) == NormalizeWord(word)
  {
    var r := NormalizeWord(word);
    KeepAll(r, IsWordChar);
    LowerLowerCase(r);
  }

  /** The characters `Split` cuts at. */
  predicate IsSeparator(c: char) { c == ' ' || c == '\t' || c == '\n' || c == '\r' }

  predicate NotSeparator(c: char) { !IsSeparator(c) }

  /** What the regular expression `[^\w\s]` does not remove. */
  predicate WordOrSpace(c: char) { IsWordChar(c) || IsWhiteSpace(c) }

  predicate NoSeparator(t: string) { forall i :: 0 <= i < |t| ==> !IsSeparator(t[i]) }

  /**
   * `Split` at the separators with `RemoveEmptyEntries`; `cur` is the token
   * being collected.
   */
  function Tokens(s: string, cur: string): (r: seq<string>)
    requires NoSeparator(cur)
    ensures forall k :: 0 <= k < |r| ==> r[k] != [] && NoSeparator(r[k])
    decreases |s|
  {
    if s == [] then (if cur == [] then [] else [cur])
    else if IsSeparator(s[0]) then (if cur == [] then [] else [cur]) + Tokens(s[1..], [])
    else Tokens(s[1..], cur + [s[0]])
  }

  function Split(s: string): seq<string> { Tokens(s, []) }

  function Concat(ts: seq<string>): string {
    if ts == [] then [] else ts[0] + Concat(ts[1..])
  }

  lemma {:induction false} ConcatAppend(a: seq<string>, b: seq<string>)
    ensures Concat(a + b) == Concat(a) + Concat(b)
  {
    if a == [] {
      assert a + b == b;
    } else {
      assert (a + b)[1..] == a[1..] + b;
      ConcatAppend(a[1..], b);
    }
  }

  /** The tokens, put back together, are the text without its separators. */
  lemma {:induction false} TokensConcat(s: string, cur: string)
    requires NoSeparator(cur)
    ensures Concat(Tokens(s, cur)) == cur + KeepChars(s, NotSeparator)
    decreases |s|
  {
    if s == [] {
      assert Concat([cur]) == cur + Concat([]);
    } else if IsSeparator(s[0]) {
      TokensConcat(s[1..], []);
      TokensConcatAtSeparator(s, cur);
    } else {
      TokensConcat(s[1..], cur + [s[0]]);
      TokensConcatInToken(s, cur);
    }
  }

  /** The step of TokensConcat at a separator: the current token is closed. */
  lemma TokensConcatAtSeparator(s: string, cur: string)
    requires s != [] && IsSeparator(s[0]) && NoSeparator(cur)
    requires Concat(Tokens(s[1..], [])) == KeepChars(s[1..], NotSeparator)
    ensures Concat(Tokens(s, cur)) == cur + KeepChars(s, NotSeparator)
  {
    var head: seq<string> := if cur == [] then [] else [cur];
    assert Tokens(s, cur) == head + Tokens(s[1..], []);
    assert KeepChars(s, NotSeparator) == KeepChars(s[1..], NotSeparator);
    ConcatAppend(head, Tokens(s[1..], []));
    assert Concat([cur]) == cur + Concat([]);
  }

  /** The step of TokensConcat inside a token: the character joins the current token. */
  lemma TokensConcatInToken(s: string, cur: string)
    requires s != [] && !IsSeparator(s[0]) && NoSeparator(cur)
    requires Concat(Tokens(s[1..], cur + [s[0]])) == (cur + [s[0]]) + KeepChars(s[1..], NotSeparator)
    ensures Concat(Tokens(s, cur)) == cur + KeepChars(s, NotSeparator)
  {
    var rest := KeepChars(s[1..], NotSeparator);
    assert Tokens(s, cur) == Tokens(s[1..], cur + [s[0]]);
    assert KeepChars(s, NotSeparator) == [s[0]] + rest;
    AppendAssoc(cur, [s[0]], rest);
  }

  lemma AppendAssoc(a: string, b: string, c: string)
    ensures (a + b) + c == a + (b + c)
  {
  }

  /** The loop of AnalyzeTextFile: the normalised tokens that are not blank, in order. */
  function NormalizedWords(tokens: seq<string>): (r: seq<string>)
    ensures forall k :: 0 <= k < |r| ==> r[k] != [] && IsLowerCase(r[k])
  {
    if tokens == [] then []
    else
      var w := NormalizeWord(tokens[|tokens| - 1]);
      NormalizedWords(tokens[..|tokens| - 1]) + (if IsBlank(w) then [] else [w])
  }

  /** The words of a text: punctuation dropped, split, normalised, blanks skipped. */
  function TextWords(content: string): seq<string> {
    NormalizedWords(Split(KeepChars(content, WordOrSpace)))
  }

  /** The dictionary a list of lines yields: each non-blank line trimmed and lower-cased. */
  function DictionaryWords(lines: seq<string>): (r: set<string>)
    ensures forall w :: w in r ==> IsLowerCase(w)
  {
    if lines == [] then {}
    else
      var line := lines[|lines| - 1];
      DictionaryWords(lines[..|lines| - 1]) + (if IsBlank(line) then {} else {Lower(Trim(line))})
  }

  /** One more line adds its normalised form, unless it is blank. */
  lemma DictionaryWordsStep(lines: seq<string>, i: nat)
    requires i < |lines|
    ensures DictionaryWords(lines[..i + 1]) ==
      DictionaryWords(lines[..i]) + (if IsBlank(lines[i]) then {} else {Lower(Trim(lines[i]))})
  {
    assert lines[..i + 1][..i] == lines[..i];
  }

  /** Every dictionary word comes from some non-blank line. */
  lemma {:induction false} DictionaryWordSource(lines: seq<string>, w: string) returns (i: nat)
    requires w in DictionaryWords(lines)
    ensures i < |lines| && !IsBlank(lines[i]) && w == Lower(Trim(lines[i]))
  {
    var init := lines[..|lines| - 1];
    if w in DictionaryWords(init) {
      i := DictionaryWordSource(init, w);
      assert init[i] == lines[i];
    } else {
      i := |lines| - 1;
    }
  }

  /** Every non-blank line contributes its normalised form. */
  lemma {:induction false} DictionaryWordFromLine(lines: seq<string>, i: nat)
    requires i < |lines| && !IsBlank(lines[i])
    ensures Lower(Trim(lines[i])) in DictionaryWords(lines)
  {
    var init := lines[..|lines| - 1];
    if i < |init| {
      assert init[i] == lines[i];
      DictionaryWordFromLine(init, i);
      DictionaryWordsGrow(lines);
    } else {
      DictionaryWordsLast(lines);
    }
  }

  lemma DictionaryWordsGrow(lines: seq<string>)
    requires lines != []
    ensures DictionaryWords(lines[..|lines| - 1]) <= DictionaryWords(lines)
  {
  }

  lemma DictionaryWordsLast(lines: seq<string>)
    requires lines != [] && !IsBlank(lines[|lines| - 1])
    ensures Lower(Trim(lines[|lines| - 1])) in DictionaryWords(lines)
  {
  }

  function Elements(s: seq<string>): set<string> {
    set w | w in s
  }

  lemma {:induction false} ElementsCard(s: seq<string>)
    ensures |Elements(s)| <= |s|
  {
    if s != [] {
      var init := s[..|s| - 1];
      assert s == init + [s[|s| - 1]];
      assert Elements(s) == Elements(init) + {s[|s| - 1]};
      ElementsCard(init);
    }
  }

  lemma SubsetCard(a: set<string>, b: set<string>)
    requires a <= b
    ensures |a| <= |b|
  {
    assert b == a + (b - a);
    assert a * (b - a) == {};
  }

  /** Occurrences of `w` in `s`, compared with OrdinalIgnoreCase. */
  function CountFold(s: seq<string>, w: string): (r: nat)
    ensures r <= |s|
  {
    if s == [] then 0
    else CountFold(s[..|s| - 1], w) + (if FoldEq(s[|s| - 1], w) then 1 else 0)
  }

  lemma {:induction false} CountFoldPositive(s: seq<string>, w: string)
    ensures CountFold(s, w) > 0 <==> exists k :: 0 <= k < |s| && FoldEq(s[k], w)
  {
    if s != [] {
      var init := s[..|s| - 1];
      CountFoldPositive(init, w);
      if exists k :: 0 <= k < |s| && FoldEq(s[k], w) {
        var k :| 0 <= k < |s| && FoldEq(s[k], w);
        if k < |init| {
          assert init[k] == s[k];
        }
      }
    }
  }

  // ---------------------------------------------------------------------
  // Sorted, capped listings
  // ---------------------------------------------------------------------

  predicate Increasing(r: seq<string>) {
    forall i, j :: 0 <= i < j < |r| ==> Less(r[i], r[j])
  }

  /**
   * `r` is `s` sorted with at most `max` entries kept (`Take` of a negative
   * count keeps none): the smallest elements of `s`, in increasing order.
   */
  predicate SortedSample(r: seq<string>, s: set<string>, max: int) {
    && |r| == (if max <= 0 then 0 else if max < |s| then max else |s|)
    && (forall i :: 0 <= i < |r| ==> r[i] in s)
    && Increasing(r)
    && (forall x, i :: x in s && x !in r && 0 <= i < |r| ==> Less(r[i], x))
  }

  predicate IsLeast(m: string, s: set<string>) {
    m in s && forall x :: x in s ==> LessEq(m, x)
  }

  lemma {:induction false} MinExists(s: set<string>)
    requires s != {}
    ensures exists m :: IsLeast(m, s)
    decreases s
  {
    var y :| y in s;
    if s == {y} {
      assert LessEq(y, y);
      assert IsLeast(y, s);
    } else {
      MinExists(s - {y});
      var m :| IsLeast(m, s - {y});
      LessTotal(m, y);
      if LessEq(m, y) {
        assert IsLeast(m, s);
      } else {
        forall x | x in s ensures LessEq(y, x) {
          if x != y {
            assert LessEq(m, x);
            LessLessEqTransitive(y, m, x);
          }
        }
        assert IsLeast(y, s);
      }
    }
  }

  /** `ToList()`, `Sort()` and `Take(max)` on a set of words. */
  method SortedPrefix(s: set<string>, max: int) returns (r: seq<string>)
    ensures SortedSample(r, s, max)
  {
    var limit := if max < 0 then 0 else max;
    var remaining := s;
    r := [];
    while |r| < limit && remaining != {}
      invariant remaining <= s
      invariant forall i :: 0 <= i < |r| ==> r[i] in s && r[i] !in remaining
      invariant forall x :: x in s ==> x in remaining || x in r
      invariant |r| + |remaining| == |s|
      invariant |r| <= limit
      invariant Increasing(r)
      invariant forall x, i :: x in remaining && 0 <= i < |r| ==> Less(r[i], x)
      decreases |remaining|
    {
      MinExists(remaining);
      var m :| IsLeast(m, remaining);
      r := r + [m];
      remaining := remaining - {m};
    }
  }

  /** The token loop of AnalyzeTextFile: the list of words and the set of them. */
  method CollectWords(tokens: seq<string>) returns (all: seq<string>, unique: set<string>)
    ensures all == NormalizedWords(tokens)
    ensures unique == Elements(all)
  {
    all := [];
    unique := {};
    for i := 0 to |tokens|
      invariant all == NormalizedWords(tokens[..i])
      invariant unique == Elements(all)
    {
      NormalizedWordsStep(tokens, i);
      var word := NormalizeWord(tokens[i]);
      if IsBlank(word) {
        continue;
      }
      ElementsSnoc(all, word);
      all := all + [word];
      unique := unique + {word};
    }
    assert tokens[..|tokens|] == tokens;
  }

  lemma NormalizedWordsStep(tokens: seq<string>, i: nat)
    requires i < |tokens|
    ensures NormalizedWords(tokens[..i + 1]) == NormalizedWords(tokens[..i]) +
      (if IsBlank(NormalizeWord(tokens[i])) then [] else [NormalizeWord(tokens[i])])
  {
    assert tokens[..i + 1][..i] == tokens[..i];
  }

  lemma ElementsSnoc(s: seq<string>, w: string)
    ensures Elements(s + [w]) == Elements(s) + {w}
  {
  }

  // ---------------------------------------------------------------------
  // The checker
  // ---------------------------------------------------------------------

  class SpellChecker {
    var dictionary: set<string>
    var allWordsInText: seq<string>
    var uniqueWordsInText: set<string>
    var correctlySpelledWords: set<string>
    var misspelledWords: set<string>
    var currentFileName: string

    /**
     * Every stored word is lower-case; the unique words are the words of the
     * text; the two categories are disjoint parts of the unique words.
     */
    ghost predicate Valid()
      reads this
    {
      && (forall w :: w in dictionary ==> IsLowerCase(w))
      && (forall k :: 0 <= k < |allWordsInText| ==> IsLowerCase(allWordsInText[k]))
      && uniqueWordsInText == Elements(allWordsInText)
      && correctlySpelledWords !! misspelledWords
      && correctlySpelledWords + misspelledWords <= uniqueWordsInText
    }

    constructor ()
      ensures Valid()
      ensures dictionary == {} && allWordsInText == [] && uniqueWordsInText == {}
      ensures correctlySpelledWords == {} && misspelledWords == {} && currentFileName == ""
    {
      dictionary := {};
      allWordsInText := [];
      uniqueWordsInText := {};
      correctlySpelledWords := {};
      misspelledWords := {};
      currentFileName := "";
    }

    predicate HasAnalyzedText()
      reads this
    {
      currentFileName != ""
    }

    /** GetTextStats: the sizes of the four collections, which nest as the invariant says. */
    function GetTextStats(): (r: (int, int, int, int))
      requires Valid()
      reads this
      ensures r.2 + r.3 <= r.1 <= r.0
      ensures r.0 == 0 ==> r.1 == 0
      ensures r.0 == |allWordsInText| && r.1 == |uniqueWordsInText|
      ensures r.2 == |correctlySpelledWords| && r.3 == |misspelledWords|
    {
      ElementsCard(allWordsInText);
      SubsetCard(correctlySpelledWords + misspelledWords, uniqueWordsInText);
      (|allWordsInText|, |uniqueWordsInText|, |correctlySpelledWords|, |misspelledWords|)
    }

    /** The loop of LoadDictionary: each non-blank line, trimmed and lower-cased, joins the set. */
    static method ReadDictionaryLines(ls: seq<string>) returns (words: set<string>)
      ensures words == DictionaryWords(ls)
    {
      words := {};
      for i := 0 to |ls|
        invariant words == DictionaryWords(ls[..i])
      {
        DictionaryWordsStep(ls, i);
        if !IsBlank(ls[i]) {
          var word := Lower(Trim(ls[i]));
          words := words + {word};
        }
      }
      assert ls[..|ls|] == ls;
    }

    /** LoadDictionary after the read: the dictionary is replaced by the normalised non-blank lines. */
    method LoadDictionary(lines: Option<seq<string>>) returns (ok: bool)
      requires Valid()
      modifies this
      ensures Valid()
      ensures ok <==> lines.Some?
      ensures !ok ==> dictionary == old(dictionary)
      ensures ok ==> dictionary == DictionaryWords(lines.value)
      ensures allWordsInText == old(allWordsInText) && uniqueWordsInText == old(uniqueWordsInText)
      ensures correctlySpelledWords == old(correctlySpelledWords) && misspelledWords == old(misspelledWords)
      ensures currentFileName == old(currentFileName)
    {
      if lines.None? {
        return false;
      }
      dictionary := ReadDictionaryLines(lines.value);
      ok := true;
    }

    /**
     * AnalyzeTextFile after the read: the four collections are cleared, the
     * words of the text are recorded in order with their set, and the file
     * name is recorded. A failed read changes nothing.
     */
    method AnalyzeTextFile(fileName: string, content: Option<string>) returns (ok: bool)
      requires Valid()
      modifies this
      ensures Valid()
      ensures ok <==> content.Some?
      ensures !ok ==> allWordsInText == old(allWordsInText) && uniqueWordsInText == old(uniqueWordsInText)
                      && correctlySpelledWords == old(correctlySpelledWords)
                      && misspelledWords == old(misspelledWords) && currentFileName == old(currentFileName)
      ensures ok ==> allWordsInText == TextWords(content.value) && uniqueWordsInText == Elements(allWordsInText)
                     && correctlySpelledWords == {} && misspelledWords == {} && currentFileName == fileName
      ensures dictionary == old(dictionary)
    {
      if content.None? {
        return false;
      }
      correctlySpelledWords := {};
      misspelledWords := {};
      var cleaned := KeepChars(content.value, WordOrSpace);
      var all, unique := CollectWords(Split(cleaned));
      allWordsInText, uniqueWordsInText := all, unique;
      currentFileName := fileName;
      ok := true;
    }

    /**
     * CategorizeWords: the unique words are split into those in the
     * dictionary and those not in it.
     */
    method CategorizeWords()
      requires Valid()
      modifies this
      ensures Valid()
      ensures correctlySpelledWords == uniqueWordsInText * dictionary
      ensures misspelledWords == uniqueWordsInText - dictionary
      ensures correctlySpelledWords + misspelledWords == uniqueWordsInText
      ensures correctlySpelledWords !! misspelledWords && misspelledWords !! dictionary
      ensures dictionary == old(dictionary) && allWordsInText == old(allWordsInText)
      ensures uniqueWordsInText == old(uniqueWordsInText) && currentFileName == old(currentFileName)
    {
      var correct: set<string> := {};
      var misspelled: set<string> := {};
      var remaining := uniqueWordsInText;
      while remaining != {}
        invariant remaining <= uniqueWordsInText
        invariant correct == (uniqueWordsInText - remaining) * dictionary
        invariant misspelled == (uniqueWordsInText - remaining) - dictionary
        decreases remaining
      {
        var word :| word in remaining;
        if word in dictionary {
          correct := correct + {word};
        } else {
          misspelled := misspelled + {word};
        }
        remaining := remaining - {word};
      }
      correctlySpelledWords, misspelledWords := correct, misspelled;
    }

    /**
     * CheckWord: case-insensitive membership of the normalised word in the
     * dictionary and in the text, and how often it occurs in the text.
     */
    method CheckWord(word: string) returns (inDictionary: bool, inText: bool, occurrences: int)
      requires Valid()
      ensures inDictionary <==> exists d :: d in dictionary && FoldEq(d, NormalizeWord(word))
      ensures inText <==> exists u :: u in uniqueWordsInText && FoldEq(u, NormalizeWord(word))
      ensures occurrences == CountFold(allWordsInText, NormalizeWord(word))
      ensures occurrences > 0 <==> inText
    {
      var normalized := NormalizeWord(word);
      inDictionary := normalized in dictionary;
      inText := normalized in uniqueWordsInText;
      occurrences := 0;
      for i := 0 to |allWordsInText|
        invariant occurrences == CountFold(allWordsInText[..i], normalized)
      {
        assert allWordsInText[..i + 1][..i] == allWordsInText[..i];
        if FoldEq(allWordsInText[i], normalized) {
          occurrences := occurrences + 1;
        }
      }
      assert allWordsInText[..|allWordsInText|] == allWordsInText;
      forall d | d in dictionary ensures FoldEq(d, normalized) <==> d == normalized {
        FoldEqLowerCase(d, normalized);
      }
      forall k | 0 <= k < |allWordsInText| ensures FoldEq(allWordsInText[k], normalized) <==> allWordsInText[k] == normalized {
        FoldEqLowerCase(allWordsInText[k], normalized);
      }
      CountFoldPositive(allWordsInText, normalized);
    }

    /** GetMisspelledWords: empty before any analysis, else the sorted misspelled words, capped. */
    method GetMisspelledWords(maxResults: int) returns (result: seq<string>)
      ensures !HasAnalyzedText() ==> result == []
      ensures HasAnalyzedText() ==> SortedSample(result, misspelledWords, maxResults)
    {
      if !HasAnalyzedText() {
        return [];
      }
      result := SortedPrefix(misspelledWords, maxResults);
    }

    /** GetUniqueWordsSample: the same over the unique words of the text. */
    method GetUniqueWordsSample(maxResults: int) returns (sample: seq<string>)
      ensures !HasAnalyzedText() ==> sample == []
      ensures HasAnalyzedText() ==> SortedSample(sample, uniqueWordsInText, maxResults)
    {
      if !HasAnalyzedText() {
        return [];
      }
      sample := SortedPrefix(uniqueWordsInText, maxResults);
    }
  }
}
