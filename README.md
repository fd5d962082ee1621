# Course-work data structures, modelled and proved in Dafny

This project models the sequential core of a set of C# course assignments and
labs, and proves what each of them promises:

- **File-system index** (`FileSystemBST`). An unbalanced binary search tree of
  entries (name, kind, size, extension).
  - Every directory is ordered before every file; after that, entries are
    ordered by case-insensitive name.
  - It supports recursive insertion and lookup, queries that filter an in-order
    traversal, top-N by size, total size, statistics, and an iterative delete.
- **Book catalog** (`BookCatalog`):
  - an in-place Lomuto quicksort over normalised titles;
  - a 26x26 index keyed by the first two letters;
  - a binary search inside one index slice;
  - suggestion picking around the insertion point.
- **Browser session**: back/forward navigation with two stacks.
- **Matchmaking system**: three FIFO queues with per-mode pairing rules.
- **Spell checker**: dictionary load, text analysis, categorisation, word
  lookup and sorted, capped listings.
- **Sets lab**:
  - case-insensitive e-mail deduplication;
  - a permission map;
  - enrolment differences and intersections.
- **Gunslinger game logic**:
  - an adjacency-list room graph;
  - the premade map;
  - room effects on the player;
  - the fight loop over a FIFO bullet chamber.
- **Tic-tac-toe board**: reset, placement, win and draw detection.
- **Stack lab**: an undo/redo action history.
- **Queue lab**: a help-desk ticket queue.
- **Loops-and-conditionals lab**: three loop sums and two letter-grade
  functions.

There is one Dafny module per source file. In addition, `Wrappers` holds
`Option`, and `Text` holds the string primitives:

- case-insensitive equality and ordering over an ASCII case fold;
- trimming and the whitespace set;
- the word-character predicate;
- an ordinal total order standing in for culture-sensitive `CompareTo`.

Operations that change state are class methods. Each one is proved to perform
exactly the transition of a value-level function (for example
`(State(), r) == Pop(old(State()))`), and the properties the source promises
are proved as lemmas about those functions. Console input becomes a method
parameter, with `None` for a null read. File contents are passed in already
read, also as `Option` where a read can fail.

Two behaviours of the file-system index are kept as written:

- Lookup and delete descend by name only, while placement compares kind first.
  - `SearchNode` is proved sound in general.
  - It is proved complete only for trees holding one kind of entry.
  - Concrete lemmas show a stored file being missed, and a create call that
    reports success without inserting anything.
- Inserting an entry whose key is already on the descent path returns the tree
  unchanged.

## Model

| member | source | states |
|---|---|---|
| FileSystemTree.CompareFileNodes | assignments/dev260_week9_bst_assignment/FileSystemBST.cs:465-473 | the result is -1, 0 or 1: only the sign of the name comparison `string.Compare` is modelled, not its magnitude |
| FileSystemTree.CompareFileNodesOrder | assignments/dev260_week9_bst_assignment/FileSystemBST.cs:465-473 | a Directory is always below a File; the comparison is antisymmetric; it is 0 exactly on the same (kind, folded name) key; and it is transitive |
| FileSystemTree.LtTransitive | assignments/dev260_week9_bst_assignment/FileSystemBST.cs:465-473 | the strict entry order is transitive |
| FileSystemTree.LtAsymmetric | assignments/dev260_week9_bst_assignment/FileSystemBST.cs:465-473 | the strict entry order is irreflexive and asymmetric |
| FileSystemTree.SameKeyCompare | assignments/dev260_week9_bst_assignment/FileSystemBST.cs:465-473 | entries with the same key compare identically against every other entry |
| FileSystemTree.BSTIffSorted | assignments/dev260_week9_bst_assignment/FileSystemBST.cs:395-414 | a tree has the search-tree ordering exactly when its in-order sequence is strictly increasing |
| FileSystemTree.SearchNode | assignments/dev260_week9_bst_assignment/FileSystemBST.cs:420-438 | soundness: a found entry is stored in the tree, and its name equals the query case-insensitively |
| FileSystemTree.SearchCompleteSingleKind | assignments/dev260_week9_bst_assignment/FileSystemBST.cs:420-438 | completeness when every entry has one kind: a stored entry with the queried name is always found |
| FileSystemTree.InsertNode | assignments/dev260_week9_bst_assignment/FileSystemBST.cs:395-414 | the tree is returned unchanged exactly when an equal key lies on the descent path; otherwise the stored multiset gains exactly the new entry |
| FileSystemTree.InsertNodeEntries | assignments/dev260_week9_bst_assignment/FileSystemBST.cs:395-414 | after an insertion, every entry is an old entry or the inserted one |
| FileSystemTree.InsertNodeKeepsBST | assignments/dev260_week9_bst_assignment/FileSystemBST.cs:395-414 | insertion preserves the search-tree ordering |
| FileSystemTree.KeyOnPathIffHasKey | assignments/dev260_week9_bst_assignment/FileSystemBST.cs:395-414 | in a search tree, the key is met on the descent path exactly when some stored entry has that key |
| FileSystemTree.InsertNodeAddsIffAbsent | assignments/dev260_week9_bst_assignment/FileSystemBST.cs:395-414 | in a search tree, inserting a present key changes nothing, and inserting an absent key adds exactly that entry |
| FileSystemTree.FilterMembers | assignments/dev260_week9_bst_assignment/FileSystemBST.cs:444-459 | traversal with a filter keeps exactly the entries that satisfy it |
| FileSystemTree.FilterConcat | assignments/dev260_week9_bst_assignment/FileSystemBST.cs:444-459 | filtering distributes over the left subtree, the node and the right subtree |
| FileSystemTree.FilterSorted | assignments/dev260_week9_bst_assignment/FileSystemBST.cs:444-459 | filtering a strictly sorted sequence gives a strictly sorted sequence |
| FileSystemTree.SumSizesConcat | assignments/dev260_week9_bst_assignment/FileSystemBST.cs:272-291 | the total size of a concatenation is the sum of the parts' totals |
| FileSystemTree.DeleteIffFound | assignments/dev260_week9_bst_assignment/FileSystemBST.cs:307-385 | delete reports success exactly when the name-only lookup finds the name; otherwise the tree is unchanged |
| FileSystemTree.DeleteRemovesOne | assignments/dev260_week9_bst_assignment/FileSystemBST.cs:307-385 | a successful delete removes exactly the found entry from its position in the in-order sequence |
| FileSystemTree.DeleteKeepsBST | assignments/dev260_week9_bst_assignment/FileSystemBST.cs:307-385 | delete preserves the search-tree ordering |
| FileSystemTree.DeleteTotalSize | assignments/dev260_week9_bst_assignment/FileSystemBST.cs:307-385 | a successful delete lowers the total size by exactly the removed entry's size |
| FileSystemTree.DeletePlug | assignments/dev260_week9_bst_assignment/FileSystemBST.cs:319-335 | the iterative name descent is equivalent to the recursive delete applied at the node where the descent stops |
| FileSystemTree.RemoveMinPlug | assignments/dev260_week9_bst_assignment/FileSystemBST.cs:344-359 | the successor walk down the left spine is equivalent to removing the minimum of the right subtree recursively |
| FileSystemNavigator.Dotted | assignments/dev260_week9_bst_assignment/FileSystemBST.cs:158-162 | the extension always starts with "."; an extension that already has one is kept, and any other gets "." prepended |
| FileSystemNavigator.InsertBySize | assignments/dev260_week9_bst_assignment/FileSystemBST.cs:236-257 | the stable insertion used by the size sort adds exactly one element |
| FileSystemNavigator.SortBySizeDesc | assignments/dev260_week9_bst_assignment/FileSystemBST.cs:236-257 | sorting by size is a permutation of its input |
| FileSystemNavigator.InsertBySizeNonIncreasing | assignments/dev260_week9_bst_assignment/FileSystemBST.cs:236-257 | inserting into a size-non-increasing sequence keeps it non-increasing |
| FileSystemNavigator.InsertBySizeStable | assignments/dev260_week9_bst_assignment/FileSystemBST.cs:236-257 | among entries of equal size, the inserted one goes in front of the others, which keep their order |
| FileSystemNavigator.SortBySizeDescOrdered | assignments/dev260_week9_bst_assignment/FileSystemBST.cs:236-257 | the sort result is ordered by non-increasing size |
| FileSystemNavigator.SortBySizeDescStable | assignments/dev260_week9_bst_assignment/FileSystemBST.cs:236-257 | the sort is stable: entries of each size keep their input order |
| FileSystemNavigator.LargestPrefix | assignments/dev260_week9_bst_assignment/FileSystemBST.cs:236-257 | every prefix of the sorted files comes from the input and is non-increasing |
| FileSystemNavigator.FilesOnly | assignments/dev260_week9_bst_assignment/FileSystemBST.cs:236-257 | the files-only filter yields only files taken from its input |
| FileSystemNavigator.StatsOverCounts | assignments/dev260_week9_bst_assignment/FileSystemBST.cs:597-620 | the statistics pass counts files and directories and sums file sizes; the largest size bounds every file, and when it changes the named largest file is a file of that size before which every visited file is strictly smaller |
| FileSystemNavigator.FileSystemBST.constructor | assignments/dev260_week9_bst_assignment/FileSystemBST.cs:25-33 | a new index is empty |
| FileSystemNavigator.FileSystemBST.IsEmpty | assignments/dev260_week9_bst_assignment/FileSystemBST.cs:625 | the index is empty exactly when it stores no entry |
| FileSystemNavigator.FileSystemBST.CreateFile | assignments/dev260_week9_bst_assignment/FileSystemBST.cs:54-75 | success exactly when the name-only lookup misses; the tree is then the insertion of the new file, and otherwise it is unchanged |
| FileSystemNavigator.FileSystemBST.CreateDirectory | assignments/dev260_week9_bst_assignment/FileSystemBST.cs:91-104 | as CreateFile, with a size-0 directory entry |
| FileSystemNavigator.FileSystemBST.FindFile | assignments/dev260_week9_bst_assignment/FileSystemBST.cs:120-132 | the result is the name-only lookup, and a found entry is stored in the tree under that name |
| FileSystemNavigator.FileSystemBST.FindFilesByExtension | assignments/dev260_week9_bst_assignment/FileSystemBST.cs:148-183 | exactly the stored files whose extension matches the dotted query case-insensitively, in sorted in-order sequence; never a directory |
| FileSystemNavigator.FileSystemBST.FindFilesBySize | assignments/dev260_week9_bst_assignment/FileSystemBST.cs:200-220 | empty when min > max; otherwise exactly the stored files with min <= size <= max, in sorted order |
| FileSystemNavigator.FileSystemBST.FindLargestFiles | assignments/dev260_week9_bst_assignment/FileSystemBST.cs:236-257 | empty for count <= 0; otherwise the first min(count, #files) stored files in stable non-increasing size order |
| FileSystemNavigator.FileSystemBST.TraverseAndCollect | assignments/dev260_week9_bst_assignment/FileSystemBST.cs:444-459 | the collection grows by exactly the entries the filter accepts, in in-order sequence |
| FileSystemNavigator.FileSystemBST.AccumulateSizes | assignments/dev260_week9_bst_assignment/FileSystemBST.cs:284-288 | the running total grows by the size of every entry of the subtree |
| FileSystemNavigator.FileSystemBST.CalculateStats | assignments/dev260_week9_bst_assignment/FileSystemBST.cs:597-620 | the statistics are those of the node-left-right visit of the subtree, folded over the starting statistics |
| FileSystemNavigator.FileSystemBST.CalculateTotalSize | assignments/dev260_week9_bst_assignment/FileSystemBST.cs:272-291 | the sum of all stored sizes, directories included, and 0 on an empty tree |
| FileSystemNavigator.FileSystemBST.DeleteItem | assignments/dev260_week9_bst_assignment/FileSystemBST.cs:307-385 | the iterative delete, including its successor copy, equals the recursive delete; it succeeds exactly when the name-only lookup finds the name and leaves the tree unchanged otherwise; the ordering invariant is kept |
| FileSystemNavigator.LookupMissesStoredFile | assignments/dev260_week9_bst_assignment/FileSystemBST.cs:420-438 | a two-kind search tree in which a stored file is missed by both lookup and delete |
| FileSystemNavigator.CreateFileSilentNoOp | assignments/dev260_week9_bst_assignment/FileSystemBST.cs:54-75 | on that tree, creating a file whose key is already stored passes the duplicate check, but insertion leaves the tree unchanged |
| FileSystemNavigator.CreateDirectoryDuplicateName | assignments/dev260_week9_bst_assignment/FileSystemBST.cs:91-104 | on that tree, a directory can be created under a name already used by a file |
| Text.TrimSlice | assignments/week-3-arrays-sorting/Week3ArraysSorting/BookCatalog.cs:16 | trimming keeps one contiguous slice: white space before and after it, non-white characters at its ends |
| Text.KeepCharsConcat | assignments/dev260_week_8_sets_assignment/SpellChecker.cs:326 | filtering characters works piecewise, so kept characters keep their order and number |
| BookCatalog.MakeBook | assignments/week-3-arrays-sorting/Week3ArraysSorting/BookCatalog.cs:13-17 | the original title is kept; the normalised form is the upper-cased slice of the title between its leading and trailing white space, and it is empty exactly for a blank title |
| BookCatalog.LoadBooks | assignments/week-3-arrays-sorting/Week3ArraysSorting/BookCatalog.cs:84-103 | a book is made from every non-blank line and only from those |
| BookCatalog.LoadBooksConcat | assignments/week-3-arrays-sorting/Week3ArraysSorting/BookCatalog.cs:84-103 | loading goes line by line: the books of two blocks of lines are those of the first followed by those of the second, so order and duplicates are kept |
| BookCatalog.Swap | assignments/week-3-arrays-sorting/Week3ArraysSorting/BookCatalog.cs:136-141 | exchanges two cells and keeps the multiset |
| BookCatalog.Partition | assignments/week-3-arrays-sorting/Week3ArraysSorting/BookCatalog.cs:118-134 | p lies in [left, right] and holds the old pivot; [left, p) is below it and (p, right] is not; the array is a permutation that differs only inside [left, right] |
| BookCatalog.QuickSortCombine | assignments/week-3-arrays-sorting/Week3ArraysSorting/BookCatalog.cs:108-116 | a partitioned range whose two sides are sorted is sorted |
| BookCatalog.QuickSort | assignments/week-3-arrays-sorting/Week3ArraysSorting/BookCatalog.cs:108-116 | [left, right] ends sorted by normalised title, the array is a permutation of its input, and cells outside the range are untouched |
| BookCatalog.LetterIndex | assignments/week-3-arrays-sorting/Week3ArraysSorting/BookCatalog.cs:146-152 | always 0..25: letters map to their alphabet position case-insensitively, and any other character maps to 0 |
| BookCatalog.BucketBounds | assignments/week-3-arrays-sorting/Week3ArraysSorting/BookCatalog.cs:157-176 | a bucket's start is -1 exactly when its end is -1, which is exactly when the bucket is empty; otherwise [start, end) holds its first and last member and covers all of them |
| BookCatalog.BuildIndex | assignments/week-3-arrays-sorting/Week3ArraysSorting/BookCatalog.cs:157-176 | the two 26x26 tables hold the first index and last index + 1 of every bucket, or -1 for an empty bucket |
| BookCatalog.Catalog.constructor | assignments/week-3-arrays-sorting/Week3ArraysSorting/BookCatalog.cs:32-79 | the loaded catalog is a permutation of the books made from the non-blank lines, sorted and indexed |
| BookCatalog.Catalog.Lookup | assignments/week-3-arrays-sorting/Week3ArraysSorting/BookCatalog.cs:181-193 | (-1, -1) exactly when the query's bucket is empty; otherwise a range within the catalog whose first and last entries are in the bucket and which covers every book of that bucket |
| BookCatalog.Catalog.BinarySearchSlice | assignments/week-3-arrays-sorting/Week3ArraysSorting/BookCatalog.cs:198-213 | -1, or an index in [s, e) whose normalised title equals the query; -1 exactly when no book of the sorted slice has that title |
| BookCatalog.Catalog.InsertionPoint | assignments/week-3-arrays-sorting/Week3ArraysSorting/BookCatalog.cs:224-225 | the first position in the slice whose title is not below the query |
| BookCatalog.Catalog.FindInsertionPoint | assignments/week-3-arrays-sorting/Week3ArraysSorting/BookCatalog.cs:224-225 | the scan loop stops at that insertion point |
| BookCatalog.AlternateCovers | assignments/week-3-arrays-sorting/Week3ArraysSorting/BookCatalog.cs:228-243 | alternating before and after the insertion point visits every index of the slice exactly once |
| BookCatalog.Catalog.SliceSuggestions | assignments/week-3-arrays-sorting/Week3ArraysSorting/BookCatalog.cs:218-246 | min(max, slice length) distinct indices from [s, e): the prefix of the before/after alternation around the insertion point |
| BookCatalog.Catalog.GlobalSuggestions | assignments/week-3-arrays-sorting/Week3ArraysSorting/BookCatalog.cs:251-264 | the first min(max, count) titles of the catalog, in order |
| Browser.Visit | assignments/assignment_5_stacks/BrowserSession.cs:35-45 | the old current page (if any) is pushed on the back stack, forward is emptied, the new page becomes current, and the navigation invariant holds |
| Browser.Back | assignments/assignment_5_stacks/BrowserSession.cs:54-65 | fails and changes nothing on an empty back stack; otherwise the back stack's top becomes current; the page count and the invariant are kept |
| Browser.Forward | assignments/assignment_5_stacks/BrowserSession.cs:74-85 | the mirror image of Back, on the forward stack |
| Browser.Clear | assignments/assignment_5_stacks/BrowserSession.cs:180-192 | both stacks are emptied, the current page is kept, and the cleared count is back + forward |
| Browser.BackThenForward | assignments/assignment_5_stacks/BrowserSession.cs:54-85 | going back and then forward restores both stacks and the current page exactly |
| Browser.ForwardThenBack | assignments/assignment_5_stacks/BrowserSession.cs:54-85 | going forward and then back restores the state exactly |
| Browser.BrowserSession.constructor | assignments/assignment_5_stacks/BrowserSession.cs:21-26 | a new session has empty stacks and no current page |
| Browser.BrowserSession.BackHistoryCount | assignments/assignment_5_stacks/BrowserSession.cs:16 | the back stack's size |
| Browser.BrowserSession.ForwardHistoryCount | assignments/assignment_5_stacks/BrowserSession.cs:17 | the forward stack's size |
| Browser.BrowserSession.CanGoBack | assignments/assignment_5_stacks/BrowserSession.cs:18 | true exactly when going back would succeed |
| Browser.BrowserSession.CanGoForward | assignments/assignment_5_stacks/BrowserSession.cs:19 | true exactly when going forward would succeed |
| Browser.BrowserSession.VisitUrl | assignments/assignment_5_stacks/BrowserSession.cs:35-45 | performs Visit and establishes the invariant "a non-empty stack implies a current page" |
| Browser.BrowserSession.GoBack | assignments/assignment_5_stacks/BrowserSession.cs:54-65 | performs Back and preserves the invariant |
| Browser.BrowserSession.GoForward | assignments/assignment_5_stacks/BrowserSession.cs:74-85 | performs Forward and preserves the invariant |
| Browser.BrowserSession.ClearHistory | assignments/assignment_5_stacks/BrowserSession.cs:180-192 | performs Clear |
| Matchmaking.Player.constructor | assignments/assignment_6_queues/MatchmakingSystem.cs:24-35 | a player holds the given name, rating and preferred mode |
| Matchmaking.CanMatchInRanked | assignments/assignment_6_queues/MatchmakingSystem.cs:350-353 | true exactly when the skill ratings differ by at most 2 |
| Matchmaking.CanMatchSymmetric | assignments/assignment_6_queues/MatchmakingSystem.cs:350-353 | the ranked rule is symmetric |
| Matchmaking.FirstCompatible | assignments/assignment_6_queues/MatchmakingSystem.cs:157-172 | the first candidate within ±2 skill, or none when no candidate is |
| Matchmaking.Pairing | assignments/assignment_6_queues/MatchmakingSystem.cs:133-207 | fewer than 2 waiting gives no match and an unchanged queue. Casual, and QuickPlay with more than 4 waiting, match exactly the front two and dequeue both. Ranked, and QuickPlay with at most 4 waiting, succeed exactly when some later player is within ±2; the partner is the first such player and only the front player is dequeued |
| Matchmaking.SkillPicksFirstCompatible | assignments/assignment_6_queues/MatchmakingSystem.cs:157-196 | under the skill rule (Ranked, or QuickPlay with at most 4 waiting) the partner is the first later player within ±2 |
| Matchmaking.SkillPairingKeepsSecondPlayer | assignments/assignment_6_queues/MatchmakingSystem.cs:157-196 | after a skill-based match, the second player is still in the stored queue, which is one shorter |
| Matchmaking.Remove | assignments/assignment_6_queues/MatchmakingSystem.cs:358-379 | removes every occurrence of the player and keeps the multiplicity of everyone else |
| Matchmaking.RemoveConcat | assignments/assignment_6_queues/MatchmakingSystem.cs:358-379 | removal distributes over concatenation, so relative order is kept |
| Matchmaking.RemoveAbsent | assignments/assignment_6_queues/MatchmakingSystem.cs:358-379 | removing an absent player changes nothing |
| Matchmaking.Rebuild | assignments/assignment_6_queues/MatchmakingSystem.cs:366-377 | the rebuild loop computes the removal |
| Matchmaking.Estimate | assignments/assignment_6_queues/MatchmakingSystem.cs:323-341 | Ranked: "No wait" exactly at 4 or more players, "Short wait (depends on skill range)" exactly at 2 or 3, "Long wait (few ranked players)" exactly below 2. Other modes: "No wait" exactly at 2 or more, "Short wait" exactly at 1, "Long wait" exactly at 0 |
| Matchmaking.EstimateAgreesWithPairing | assignments/assignment_6_queues/MatchmakingSystem.cs:323-341 | in Casual, "No wait" is exactly when a match can be made; a long-wait estimate means no match can be made |
| Matchmaking.MatchmakingSystem.constructor | assignments/assignment_6_queues/MatchmakingSystem.cs:24-35 | a new system has empty queues and no players |
| Matchmaking.MatchmakingSystem.SetQueue | assignments/assignment_6_queues/MatchmakingSystem.cs:384-393 | writes the queue of one mode and leaves the others untouched |
| Matchmaking.MatchmakingSystem.CreatePlayer | assignments/assignment_6_queues/MatchmakingSystem.cs:24-35 | refused exactly when the name is already taken case-insensitively; otherwise exactly one fresh player with the given data is appended |
| Matchmaking.MatchmakingSystem.AddToQueue | assignments/assignment_6_queues/MatchmakingSystem.cs:87-119 | null changes nothing; otherwise the player joins the back of the mode's queue and the other queues are unchanged |
| Matchmaking.MatchmakingSystem.TryCreateMatch | assignments/assignment_6_queues/MatchmakingSystem.cs:133-207 | the result and the new stored queue are exactly Pairing of the old queue; other queues are unchanged |
| Matchmaking.MatchmakingSystem.GetQueueEstimate | assignments/assignment_6_queues/MatchmakingSystem.cs:323-341 | the estimate is Estimate for the mode and the current length of its queue, so "No wait" exactly at the mode's threshold |
| Matchmaking.MatchmakingSystem.RemoveFromAllQueues | assignments/assignment_6_queues/MatchmakingSystem.cs:358-379 | each of the three queues becomes its removal |
| SpellCheck.NormalizeWord | assignments/dev260_week_8_sets_assignment/SpellChecker.cs:320-328 | blank input gives ""; the result is the lower-cased word characters of the input, in order, so trimming first changes nothing |
| SpellCheck.KeepWordCharsIgnoresTrim | assignments/dev260_week_8_sets_assignment/SpellChecker.cs:325-326 | white space is never a word character, so filtering the trimmed word keeps the same characters as filtering the whole word |
| SpellCheck.NormalizeIdempotent | assignments/dev260_week_8_sets_assignment/SpellChecker.cs:320-328 | normalising twice is the same as normalising once |
| SpellCheck.Tokens | assignments/dev260_week_8_sets_assignment/SpellChecker.cs:137-161 | splitting yields non-empty tokens without separators |
| SpellCheck.TokensConcat | assignments/dev260_week_8_sets_assignment/SpellChecker.cs:137-161 | the tokens, concatenated, are exactly the input's non-separator characters |
| SpellCheck.NormalizedWords | assignments/dev260_week_8_sets_assignment/SpellChecker.cs:137-161 | every kept word is non-empty and lower-case |
| SpellCheck.DictionaryWords | assignments/dev260_week_8_sets_assignment/SpellChecker.cs:85-99 | every dictionary word is lower-case |
| SpellCheck.DictionaryWordSource | assignments/dev260_week_8_sets_assignment/SpellChecker.cs:85-99 | every dictionary word is the trimmed, lower-cased form of a non-blank line |
| SpellCheck.DictionaryWordFromLine | assignments/dev260_week_8_sets_assignment/SpellChecker.cs:85-99 | every non-blank line contributes its trimmed, lower-cased form |
| SpellCheck.CountFoldPositive | assignments/dev260_week_8_sets_assignment/SpellChecker.cs:224-246 | the occurrence count is positive exactly when some analysed word equals the query case-insensitively |
| SpellCheck.SortedPrefix | assignments/dev260_week_8_sets_assignment/SpellChecker.cs:263-282 | an ascending list of at most max distinct words, each from the set, consisting of the set's smallest words |
| SpellCheck.CollectWords | assignments/dev260_week_8_sets_assignment/SpellChecker.cs:137-161 | the analysis loop collects every normalised token in order, and the unique set is exactly its elements |
| SpellCheck.SpellChecker.constructor | assignments/dev260_week_8_sets_assignment/SpellChecker.cs:26-34 | all collections start empty |
| SpellCheck.SpellChecker.GetTextStats | assignments/dev260_week_8_sets_assignment/SpellChecker.cs:54-62 | exactly the sizes of the text's word list, its word set, and the correct and misspelled sets; correct + misspelled <= unique <= total |
| SpellCheck.SpellChecker.ReadDictionaryLines | assignments/dev260_week_8_sets_assignment/SpellChecker.cs:90-97 | the set collected over the lines is exactly the trimmed, lower-cased non-blank lines |
| SpellCheck.SpellChecker.LoadDictionary | assignments/dev260_week_8_sets_assignment/SpellChecker.cs:80-109 | on a successful read the dictionary is replaced by the lines' words; a failed read changes nothing |
| SpellCheck.SpellChecker.AnalyzeTextFile | assignments/dev260_week_8_sets_assignment/SpellChecker.cs:130-167 | on success, the words are the normalised tokens in order, the unique set is their set, both categories are cleared and the file name is recorded; a failed read changes nothing |
| SpellCheck.SpellChecker.CategorizeWords | assignments/dev260_week_8_sets_assignment/SpellChecker.cs:185-206 | correct is unique ∩ dictionary and misspelled is unique \ dictionary; together they are the unique words, and they are disjoint |
| SpellCheck.SpellChecker.CheckWord | assignments/dev260_week_8_sets_assignment/SpellChecker.cs:224-246 | dictionary and text membership of the normalised word, case-insensitively, plus its occurrence count, which is positive exactly when it occurs in the text |
| SpellCheck.SpellChecker.GetMisspelledWords | assignments/dev260_week_8_sets_assignment/SpellChecker.cs:263-282 | empty before any analysis; otherwise the sorted, capped sample of the misspelled words |
| SpellCheck.SpellChecker.GetUniqueWordsSample | assignments/dev260_week_8_sets_assignment/SpellChecker.cs:299-317 | the same contract over the unique words |
| SetsLab.Dedup | labs/dev260_week_8_sets_lab/Program.cs:119-143 | deduplication never lengthens the list |
| SetsLab.DedupNoDuplicates | labs/dev260_week_8_sets_lab/Program.cs:119-143 | no two kept e-mails are equal case-insensitively |
| SetsLab.DedupFromInput | labs/dev260_week_8_sets_lab/Program.cs:119-143 | every kept e-mail comes from the input |
| SetsLab.DedupCovers | labs/dev260_week_8_sets_lab/Program.cs:119-143 | every input e-mail is represented case-insensitively |
| SetsLab.FillFoldSet | labs/dev260_week_8_sets_lab/Program.cs:126-130 | the insertion loop computes the deduplication |
| SetsLab.UnionAdds | labs/dev260_week_8_sets_lab/Program.cs:188-208 | the growth of a union is the number of new elements not already present |
| SetsLab.SetOperationsLab.constructor | labs/dev260_week_8_sets_lab/Program.cs:92-100 | empty map and sets, and no operations; the demo data load is left out |
| SetsLab.SetOperationsLab.InitializeUserPermissions | labs/dev260_week_8_sets_lab/Program.cs:408-414 | every given user's permission set is stored, replacing an earlier one; other users keep theirs and no operation is counted |
| SetsLab.SetOperationsLab.InitializeEnrollmentData | labs/dev260_week_8_sets_lab/Program.cs:416-420 | each enrolment set gains the given students; nothing else changes |
| SetsLab.SetOperationsLab.DeduplicateEmails | labs/dev260_week_8_sets_lab/Program.cs:119-143 | returns the number removed, and the list has no case-insensitive duplicates yet represents every input; one operation is counted |
| SetsLab.SetOperationsLab.HasPermission | labs/dev260_week_8_sets_lab/Program.cs:159-172 | false for an unknown user, otherwise set membership; one operation is counted |
| SetsLab.SetOperationsLab.AddPermissions | labs/dev260_week_8_sets_lab/Program.cs:188-208 | the user's set (empty if new) gains the new permissions, and the result is how many were not present; one operation is counted |
| SetsLab.SetOperationsLab.GetMissingPermissions | labs/dev260_week_8_sets_lab/Program.cs:224-252 | required minus the user's set (all of required for an unknown user); the map is unchanged |
| SetsLab.SetOperationsLab.FindNewStudents | labs/dev260_week_8_sets_lab/Program.cs:267-278 | now \ last, with both sets unchanged |
| SetsLab.SetOperationsLab.FindDroppedStudents | labs/dev260_week_8_sets_lab/Program.cs:293-304 | last \ now, with both sets unchanged |
| SetsLab.SetOperationsLab.FindContinuingStudents | labs/dev260_week_8_sets_lab/Program.cs:319-330 | now ∩ last, with both sets unchanged |
| SetsLab.EnrolmentPartition | labs/dev260_week_8_sets_lab/Program.cs:267-330 | new and continuing students partition the current enrolment; dropped and continuing students partition the last one |
| Gunslinger.WithVertex | final_project/Gunslinger_Game/GameLogic.cs:78-82 | adds the vertex with an empty list only when absent; existing lists are untouched |
| Gunslinger.WithEdge | final_project/Gunslinger_Game/GameLogic.cs:87-92 | both endpoints become vertices, and `to` is appended to `from`'s list |
| Gunslinger.AddVertexIdempotent | final_project/Gunslinger_Game/GameLogic.cs:78-82 | adding a vertex twice is adding it once, and no neighbour list changes |
| Gunslinger.AddEdgeElsewhere | final_project/Gunslinger_Game/GameLogic.cs:87-92 | an edge changes no other vertex's neighbours |
| Gunslinger.AddEdgeNeighbors | final_project/Gunslinger_Game/GameLogic.cs:87-92 | `from` gains `to` at the end, duplicates and self-loops kept; other lists are unchanged; a new `to` has no neighbours |
| Gunslinger.Graph.constructor | final_project/Gunslinger_Game/GameLogic.cs:71-74 | a new graph is empty |
| Gunslinger.Graph.AddVertex | final_project/Gunslinger_Game/GameLogic.cs:78-82 | performs WithVertex |
| Gunslinger.Graph.AddEdge | final_project/Gunslinger_Game/GameLogic.cs:87-92 | performs WithEdge |
| Gunslinger.Graph.GetNeighbors | final_project/Gunslinger_Game/GameLogic.cs:96-99 | the stored list, or empty for an unknown vertex |
| Gunslinger.BuildPremadeGraph | final_project/Gunslinger_Game/GameLogic.cs:120-148 | the built graph has exactly the drawn neighbour lists |
| Gunslinger.PremadeAdjacency | final_project/Gunslinger_Game/GameLogic.cs:103-148 | every room of the drawn map has the drawn successors, and Goal1 has none |
| Gunslinger.PremadeRoutes | final_project/Gunslinger_Game/GameLogic.cs:103-148 | the three routes from Start to Goal1 in the drawing are paths of the graph |
| Gunslinger.SumDamageAppend | final_project/Gunslinger_Game/GameLogic.cs:250-266 | the damage of a concatenation is the sum of the parts' damages |
| Gunslinger.PlayerState.constructor | final_project/Gunslinger_Game/GameLogic.cs:31-56 | 12 HP, the six initial bullets, room "Start" |
| Gunslinger.CreateNewPlayer | final_project/Gunslinger_Game/GameLogic.cs:154-162 | 12 HP, room "Start", and 7 bullets: the six initial ones plus a Normal(2) at the back |
| Gunslinger.PlayerAction | final_project/Gunslinger_Game/GameLogic.cs:231-274 | a shot fires the front bullet; reload appends two Normal(2); rapid fire empties the chamber for its total damage; an empty shot or an invalid choice changes nothing; damage dealt plus damage left in the chamber is conserved |
| Gunslinger.Turn | final_project/Gunslinger_Game/GameLogic.cs:231-284 | the enemy hits back only after a valid action that leaves it alive |
| Gunslinger.Fight | final_project/Gunslinger_Game/GameLogic.cs:220-284 | a fight that is already over changes nothing |
| Gunslinger.FightNeverHeals | final_project/Gunslinger_Game/GameLogic.cs:220-284 | a fight never raises the player's HP |
| Gunslinger.FightIgnoresLaterInput | final_project/Gunslinger_Game/GameLogic.cs:220-284 | once the enemy or the player is down, further choices are not read |
| Gunslinger.RapidFire | final_project/Gunslinger_Game/GameLogic.cs:250-266 | the chamber is emptied and the total damage is the sum of its bullets |
| Gunslinger.PlayTurn | final_project/Gunslinger_Game/GameLogic.cs:231-284 | one loop iteration performs exactly Turn on the player's state |
| Gunslinger.RunFight | final_project/Gunslinger_Game/GameLogic.cs:202-295 | enemy 5 HP/2 damage, or boss 23/3; the player ends in the state of Fight, with the matching outcome message |
| Gunslinger.EnterRoom | final_project/Gunslinger_Game/GameLogic.cs:167-197 | always sets the room. Exact "Start" is checked first, then the prefixes Heal (+5 HP), Ammo (+2 Heavy(4)), Enemy and Boss (a fight), and Goal (win message) |
| TicTacToe.Other | assignments/week-3-arrays-sorting/Week3ArraysSorting/BoardGame.cs:94-97 | 'X' becomes 'O' and anything else becomes 'X' |
| TicTacToe.SwitchTwice | assignments/week-3-arrays-sorting/Week3ArraysSorting/BoardGame.cs:94-97 | switching twice returns to the same mark |
| TicTacToe.CellOf | assignments/week-3-arrays-sorting/Week3ArraysSorting/BoardGame.cs:79-83 | a choice 1..9 names an in-range cell in row-major order |
| TicTacToe.CellOfBijective | assignments/week-3-arrays-sorting/Week3ArraysSorting/BoardGame.cs:79-83 | different choices name different cells, and every cell is named |
| TicTacToe.LabelOfChoice | assignments/week-3-arrays-sorting/Week3ArraysSorting/BoardGame.cs:48-54 | on a reset board, each choice's cell shows that choice's digit |
| TicTacToe.BoardGame.constructor | assignments/week-3-arrays-sorting/Week3ArraysSorting/BoardGame.cs:5-6 | a fresh 3x3 board with 'X' to move |
| TicTacToe.BoardGame.ResetBoard | assignments/week-3-arrays-sorting/Week3ArraysSorting/BoardGame.cs:48-54 | writes '1'..'9' in row-major order |
| TicTacToe.BoardGame.TryMove | assignments/week-3-arrays-sorting/Week3ArraysSorting/BoardGame.cs:79-90 | places the current mark exactly when the choice is in 1..9 and its cell holds no mark; no other cell changes |
| TicTacToe.BoardGame.SwitchPlayer | assignments/week-3-arrays-sorting/Week3ArraysSorting/BoardGame.cs:94-97 | the turn passes to the other mark |
| TicTacToe.BoardGame.CheckWin | assignments/week-3-arrays-sorting/Week3ArraysSorting/BoardGame.cs:100-118 | true exactly when a row, a column or a diagonal is full of the current mark |
| TicTacToe.BoardGame.CheckDraw | assignments/week-3-arrays-sorting/Week3ArraysSorting/BoardGame.cs:120-126 | true exactly when every cell holds a mark |
| TicTacToe.BoardGame.ResetIsOpen | assignments/week-3-arrays-sorting/Week3ArraysSorting/BoardGame.cs:48-54 | right after a reset there is neither a draw nor a winner |
| StackLab.Push | labs/lab_5_stacks/StackStarter.cs:125-150 | null or blank input changes nothing; otherwise the input becomes the top, the undo stack is emptied and one operation is counted |
| StackLab.Pop | labs/lab_5_stacks/StackStarter.cs:153-182 | nothing changes on an empty stack; otherwise the top moves onto the undo stack; the entry total is kept |
| StackLab.Peek | labs/lab_5_stacks/StackStarter.cs:185-201 | the top if any, which is what Pop would remove |
| StackLab.Clear | labs/lab_5_stacks/StackStarter.cs:234-258 | both stacks are emptied; the removed count is reported, and an operation is counted only if something was held |
| StackLab.Undo | labs/lab_5_stacks/StackStarter.cs:261-284 | nothing changes on an empty undo stack; otherwise its top returns to the action stack; the entry total is kept |
| StackLab.Redo | labs/lab_5_stacks/StackStarter.cs:287-310 | moves the action stack's top onto the undo stack |
| StackLab.RedoIsPop | labs/lab_5_stacks/StackStarter.cs:287-310 | redo has exactly the effect of pop |
| StackLab.PopThenUndo | labs/lab_5_stacks/StackStarter.cs:153-284 | pop followed by undo restores both stacks exactly |
| StackLab.UndoThenPop | labs/lab_5_stacks/StackStarter.cs:153-284 | undo followed by pop restores both stacks exactly |
| StackLab.PushForgetsUndo | labs/lab_5_stacks/StackStarter.cs:125-150 | after a push, nothing can be undone and the pushed input is on top |
| StackLab.StackSession.constructor | labs/lab_5_stacks/StackStarter.cs:46-50 | empty stacks and no operations |
| StackLab.StackSession.HandlePush | labs/lab_5_stacks/StackStarter.cs:125-150 | performs Push |
| StackLab.StackSession.HandlePop | labs/lab_5_stacks/StackStarter.cs:153-182 | performs Pop |
| StackLab.StackSession.HandlePeek | labs/lab_5_stacks/StackStarter.cs:185-201 | returns Peek and changes nothing |
| StackLab.StackSession.HandleClear | labs/lab_5_stacks/StackStarter.cs:234-258 | performs Clear |
| StackLab.StackSession.HandleUndo | labs/lab_5_stacks/StackStarter.cs:261-284 | performs Undo |
| StackLab.StackSession.HandleRedo | labs/lab_5_stacks/StackStarter.cs:287-310 | performs Redo |
| QueueLab.FormatD3 | labs/lab-6-queues/QueueStarter.cs:196 | at least 3 characters, all digits |
| QueueLab.FormatD3Value | labs/lab-6-queues/QueueStarter.cs:196 | the zero-padded digits read back as the number |
| QueueLab.TicketId | labs/lab-6-queues/QueueStarter.cs:196 | the prefix letter followed by the zero-padded counter |
| QueueLab.TicketIdNumber | labs/lab-6-queues/QueueStarter.cs:196 | the number in a ticket id is the counter it was made from |
| QueueLab.ParseInt | labs/lab-6-queues/QueueStarter.cs:177 | a parse succeeds only on non-blank text; text of only TryParse white space (U+0009 to U+000D, space) fails |
| QueueLab.ParseAround | labs/lab-6-queues/QueueStarter.cs:177 | TryParse white space around a number does not change what it parses to |
| QueueLab.ParseDecimal | labs/lab-6-queues/QueueStarter.cs:177 | every integer's decimal text, with a minus sign when negative, parses back to that integer |
| QueueLab.ParseRejects | labs/lab-6-queues/QueueStarter.cs:177 | a character that is not a digit, other than a leading sign, makes the parse fail |
| QueueLab.ParseDigit | labs/lab-6-queues/QueueStarter.cs:177 | a single digit parses to its value |
| QueueLab.SelectDescription | labs/lab-6-queues/QueueStarter.cs:169-192 | "0" cancels; "1".."5" selects the matching common issue; "6" takes the trimmed custom text |
| QueueLab.QuickSelectionAccepted | labs/lab-6-queues/QueueStarter.cs:177-192 | each of the five quick choices gives an accepted description |
| QueueLab.MatchPositions | labs/lab-6-queues/QueueStarter.cs:435-457 | strictly increasing 1-based positions of matching tickets |
| QueueLab.MatchPositionsComplete | labs/lab-6-queues/QueueStarter.cs:435-457 | every matching ticket's position is reported |
| QueueLab.IdsDistinct | labs/lab-6-queues/QueueStarter.cs:196-205 | tickets in the queue have distinct ids, because the shared counter grows with each accepted ticket |
| QueueLab.SupportDesk.constructor | labs/lab-6-queues/QueueStarter.cs:45-52 | an empty queue, counter 1, no operations |
| QueueLab.SupportDesk.Enqueue | labs/lab-6-queues/QueueStarter.cs:195-206 | the new ticket gets the next id and goes to the back; counter and operations each grow by one |
| QueueLab.SupportDesk.HandleSubmitTicket | labs/lab-6-queues/QueueStarter.cs:152-212 | an accepted description appends a Normal "T" ticket at the back; otherwise queue, counter and operations are unchanged |
| QueueLab.SupportDesk.HandleUrgentTicket | labs/lab-6-queues/QueueStarter.cs:363-404 | non-blank trimmed text appends an Urgent "U" ticket at the back, without priority; otherwise nothing changes |
| QueueLab.SupportDesk.HandleProcessTicket | labs/lab-6-queues/QueueStarter.cs:215-255 | an empty queue changes nothing; otherwise the front ticket is removed in FIFO order and one operation is counted |
| QueueLab.SupportDesk.HandlePeekNext | labs/lab-6-queues/QueueStarter.cs:258-286 | the front ticket if any; nothing changes |
| QueueLab.SupportDesk.HandleClearQueue | labs/lab-6-queues/QueueStarter.cs:321-360 | empties a non-empty queue only on a "y"/"yes" confirmation, reporting the count; otherwise nothing changes |
| QueueLab.SupportDesk.HandleSearchTicket | labs/lab-6-queues/QueueStarter.cs:407-466 | no results for an empty queue or a blank term; otherwise the positions of tickets whose id or description contains the lower-cased term |
| LoopsLab.EvenSumClosedForm | labs/LoopsAndConditionalsLab/Program.cs:36-76 | the sum of the first n even numbers is n(n+1) |
| LoopsLab.EvenSumTo100 | labs/LoopsAndConditionalsLab/Program.cs:36-76 | 2 + 4 + ... + 100 is 2550 |
| LoopsLab.SumWithFor | labs/LoopsAndConditionalsLab/Program.cs:36-45 | the for loop returns 2550 |
| LoopsLab.SumWithWhile | labs/LoopsAndConditionalsLab/Program.cs:47-57 | the while loop returns the same 2550 |
| LoopsLab.SumWithForEach | labs/LoopsAndConditionalsLab/Program.cs:59-76 | filling the 50-element array and adding it up returns the same 2550 |
| LoopsLab.IfElseGrade | labs/LoopsAndConditionalsLab/Program.cs:93-115 | A exactly at 90 or more, B exactly for 80..89, C for 70..79, D for 60..69, F below 60 |
| LoopsLab.GradesAgree | labs/LoopsAndConditionalsLab/Program.cs:93-127 | the switch form and the if-else form agree on every score |

## Left out

- Console output, menus and rendering are not modelled:
  - `DisplayTree*`, `DrawBoard`, `HandleDisplay`, `HandleDisplayQueue`;
  - the statistics and summary printers (`ShowStatistics`, `HandleQueueStatistics`, `GetStatistics`, `GetSystemStats`);
  - `Main` and every menu loop.
- Console input is a method parameter. The retry loop of `PlayerMove` is modelled as one attempt (`TryMove`), and `AskPlayAgain` is left out.
- Clocks and timing are not modelled: the operation timing of the file-system index, `sessionStart`, queue join/leave times, and ticket submission times.
- Floating point is not modelled: `CalculateRetentionRate` and the average skill difference of `GetSystemStats`.
- `ProcessMatch` is not modelled because it depends on `Match.SimulateOutcome`, whose code is not part of this model.
- File reading is not modelled. Dictionary, text and book-list contents arrive as values, with `None` for a failed read.
- `FormatSize` (a display string) and `LoadSampleData` (a fixed demo sequence) are not modelled.
- MusicPlaylist, the Week 2 foundations demos and the game UI are not modelled: they are stubs, library demos or menus.
- The `FileNode`, `TreeNode`, `WebPage`, `Player`, `Match` and `SupportTicket` types are not part of this model. Each is a minimal record or class with the fields the modelled code reads; a file's extension is a given field.
- Integers are unbounded: 32-bit and 64-bit overflow of sizes, counters, HP and sums is not modelled.
- Case mapping (ToUpper/ToLower) and case-insensitive comparison act on ASCII letters only. Whitespace is a fixed set: ASCII 9-13, space, U+0085 and U+00A0.
- The regular-expression word class `\w` is modelled as ASCII letters, digits and underscore.
- Culture-sensitive `CompareTo` and `List.Sort` are modelled as one fixed ordinal total order. The proofs use only its total-order lemmas.
- Ordinal comparison is over Unicode scalar values, not UTF-16 code units: strings with characters outside the Basic Multilingual Plane can order differently from .NET.
- Culture-sensitive `StartsWith(string)` is modelled as an ordinal prefix test: the room prefixes of `EnterRoom` (GameLogic.cs:174-193) and the "." test of `Dotted` (FileSystemBST.cs:159).
- Default argument values are not modelled; the modelled operations take these as ordinary parameters: `size = 1024` of `CreateFile` (FileSystemBST.cs:54) and `preferredMode = GameMode.Casual` of `CreatePlayer` (MatchmakingSystem.cs:23).
- The `HashSet` enumeration order in `DeduplicateEmails` is modelled as first-occurrence order.
- SetsLab.SetOperationsLab.constructor: the demo data loaded by LabSupport.LoadDemoData (code not among the source files) is not modelled; the lab starts empty.
- SetsLab.SetOperationsLab.AddPermissions: the source stores the caller's `HashSet` objects by reference (Program.cs:408-413) and `UnionWith` then changes such a shared set in place; the model's sets are values, so that aliasing is not captured.
- SetsLab.SetOperationsLab.DeduplicateEmails: the caller's list is rewritten in place in the source; the model returns the deduplicated sequence beside the count, so the update through the caller's reference is not captured.
- Gunslinger.Graph.GetNeighbors: the source hands out the stored neighbour list by reference, so a caller can change the graph through it; the model returns a copy, and that aliasing is not captured.
- FileSystemNavigator.FileSystemBST.TraverseAndCollect: the source appends to the caller's list in place; the model returns the extended sequence.
- FileSystemNavigator.FileSystemBST: the tree is a value, reassigned by the methods. In-place relinking of nodes is not modelled; nodes are never shared, so no aliasing is lost.
- FileSystemNavigator.FileSystemBST.DeleteItem: the two-child case is stated as the recursive delete that copies the in-order successor, not as rewiring of child links.
- Gunslinger.RunFight: the player's choices are a finite sequence. If it runs out before the fight ends, the model returns no message, where the source would keep reading.
- FileSystemTree.CompareFileNodes: the name comparison returns only the sign of `string.Compare`; every caller tests only the sign.
- BookCatalog.Catalog.SliceSuggestions: returns the chosen indices rather than printing titles.
- QueueLab.ParseInt: it accepts TryParse white space, an optional sign and decimal digits. The 32-bit range check of `int.TryParse`, culture-specific sign symbols and trailing NUL characters are not modelled.
- SpellCheck.SortedPrefix: the `List.Sort` followed by `Take` is modelled as repeated minimum selection; the result is the same sorted prefix.
- LoopsLab.SwitchGrade: the switch expression is modelled as "the first arm whose lower bound is met"; it is related to the if-else form by GradesAgree.
