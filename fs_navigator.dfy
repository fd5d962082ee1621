/**
 * The file-system navigator of FileSystemBST.cs: a class holding the root of
 * the tree, with the creation, lookup, query and deletion operations.
 */
module FileSystemNavigator {
  import opened Wrappers
  import opened Text
  import opened FileSystemTree

  // ---------------------------------------------------------------------
  // Filters used by the queries
  // ---------------------------------------------------------------------

  function Min(a: int, b: int): int { if a < b then a else b }

  function IsFile(): FileNode -> bool { (f: FileNode) => f.kind == File }

  /** A File whose extension equals `ext` case-insensitively. */
  function ExtensionFilter(ext: string): FileNode -> bool {
    (f: FileNode) => f.kind == File && FoldEq(f.extension, ext)
  }

  /** A File whose size lies in the inclusive range. */
  function SizeFilter(minSize: int, maxSize: int): FileNode -> bool {
    (f: FileNode) => f.kind == File && minSize <= f.size <= maxSize
  }

  /** The extension with a leading dot added when it has none. */
  function Dotted(extension: string): (r: string)
    ensures StartsWith(r, ".")
    ensures StartsWith(extension, ".") ==> r == extension
    ensures !StartsWith(extension, ".") ==> r == "." + extension
  {
    if StartsWith(extension, ".") then extension else "." + extension
  }

  // ---------------------------------------------------------------------
  // Stable ordering by size, largest first (OrderByDescending)
  // ---------------------------------------------------------------------

  /** Inserts `x` after every strictly larger entry and before the rest. */
  function InsertBySize(x: FileNode, s: seq<FileNode>): (r: seq<FileNode>)
    ensures |r| == |s| + 1
    ensures multiset(r) == multiset(s) + multiset{x}
  {
    if s != [] && s[0].size > x.size then
      assert s == [s[0]] + s[1..];
      [s[0]] + InsertBySize(x, s[1..])
    else [x] + s
  }

  function SortBySizeDesc(s: seq<FileNode>): (r: seq<FileNode>)
    ensures |r| == |s|
    ensures multiset(r) == multiset(s)
  {
    if s == [] then []
    else
      assert s == [s[0]] + s[1..];
      InsertBySize(s[0], SortBySizeDesc(s[1..]))
  }

  ghost predicate NonIncreasing(s: seq<FileNode>) {
    forall i, j | 0 <= i < j < |s| :: s[i].size >= s[j].size
  }

  function SizeIs(k: int): FileNode -> bool { (f: FileNode) => f.size == k }

  lemma {:induction false} InsertBySizeNonIncreasing(x: FileNode, s: seq<FileNode>)
    requires NonIncreasing(s)
    ensures NonIncreasing(InsertBySize(x, s))
  {
    var r := InsertBySize(x, s);
    if s != [] && s[0].size > x.size {
      InsertBySizeNonIncreasing(x, s[1..]);
      var t := InsertBySize(x, s[1..]);
      forall i, j | 0 <= i < j < |r| ensures r[i].size >= r[j].size {
        if i == 0 {
          assert r[j] == t[j - 1];
          assert r[j] in multiset(t);
          assert r[j] == x || r[j] in multiset(s[1..]);
          if r[j] != x {
            var m :| 0 <= m < |s[1..]| && s[1..][m] == r[j];
            assert s[m + 1] == r[j];
          }
        } else {
          assert r[i] == t[i - 1] && r[j] == t[j - 1];
        }
      }
    } else {
      forall i, j | 0 <= i < j < |r| ensures r[i].size >= r[j].size {
        if i == 0 {
          assert r[j] == s[j - 1];
          if j > 1 { assert s[0].size >= s[j - 1].size; }
        } else {
          assert r[i] == s[i - 1] && r[j] == s[j - 1];
        }
      }
    }
  }

  /** Among entries of one size, insertion keeps `x` in front of the others. */
  lemma {:induction false} InsertBySizeStable(x: FileNode, s: seq<FileNode>, k: int)
    ensures Filter(InsertBySize(x, s), SizeIs(k)) == (if x.size == k then [x] else []) + Filter(s, SizeIs(k))
  {
    var keep := SizeIs(k);
    if s != [] && s[0].size > x.size {
      InsertBySizeStable(x, s[1..], k);
      var head := if keep(s[0]) then [s[0]] else [];
      FilterCons(s[0], InsertBySize(x, s[1..]), keep);
      FilterCons(s[0], s[1..], keep);
      assert s == [s[0]] + s[1..];
      if x.size == k {
        assert head == [];
      }
    } else {
      FilterCons(x, s, keep);
    }
  }

  /** Filtering a sequence with a first entry. */
  lemma FilterCons(a: FileNode, t: seq<FileNode>, f: FileNode -> bool)
    ensures Filter([a] + t, f) == (if f(a) then [a] else []) + Filter(t, f)
  {
    assert ([a] + t)[1..] == t;
  }

  /** The size ordering used by FindLargestFiles: sizes never increase along the result. */
  lemma {:induction false} SortBySizeDescOrdered(s: seq<FileNode>)
    ensures NonIncreasing(SortBySizeDesc(s))
  {
    if s != [] {
      SortBySizeDescOrdered(s[1..]);
      InsertBySizeNonIncreasing(s[0], SortBySizeDesc(s[1..]));
    }
  }

  /** The size ordering is stable: entries of one size keep their input order. */
  lemma {:induction false} SortBySizeDescStable(s: seq<FileNode>, k: int)
    ensures Filter(SortBySizeDesc(s), SizeIs(k)) == Filter(s, SizeIs(k))
  {
    if s != [] {
      SortBySizeDescStable(s[1..], k);
      InsertBySizeStable(s[0], SortBySizeDesc(s[1..]), k);
    }
  }

  /** A prefix of the size ordering holds input entries, largest first. */
  lemma LargestPrefix(files: seq<FileNode>, n: nat)
    requires n <= |files|
    ensures forall f | f in SortBySizeDesc(files)[..n] :: f in files
    ensures NonIncreasing(SortBySizeDesc(files)[..n])
  {
    var sorted := SortBySizeDesc(files);
    SortBySizeDescOrdered(files);
    forall f | f in sorted[..n] ensures f in files {
      assert f in multiset(sorted);
    }
    forall i, j | 0 <= i < j < n ensures sorted[..n][i].size >= sorted[..n][j].size {
      assert sorted[..n][i] == sorted[i] && sorted[..n][j] == sorted[j];
    }
  }

  lemma FilesOnly(s: seq<FileNode>)
    ensures forall f | f in Filter(s, IsFile()) :: f.kind == File && f in s
  {
    FilterMembers(s, IsFile());
  }

  // ---------------------------------------------------------------------
  // Statistics (CalculateStats)
  // ---------------------------------------------------------------------

  /** The fields of the statistics record that CalculateStats fills in. */
  datatype Stats = Stats(totalFiles: int, totalDirectories: int, totalSize: int, largestFileSize: int, largestFile: Option<string>)

  const NoStats := Stats(0, 0, 0, 0, None)

  /** Node first, then the left subtree, then the right: the order CalculateStats visits. */
  function PreOrder(t: Tree): seq<FileNode> {
    match t
    case Nil => []
    case Node(l, d, rt) => [d] + PreOrder(l) + PreOrder(rt)
  }

  /** One visited entry's effect on the statistics. */
  function StatsStep(st: Stats, f: FileNode): Stats {
    if f.kind == File then
      var st' := st.(totalFiles := st.totalFiles + 1, totalSize := st.totalSize + f.size);
      if f.size > st.largestFileSize then st'.(largestFileSize := f.size, largestFile := Some(f.name)) else st'
    else st.(totalDirectories := st.totalDirectories + 1)
  }

  function StatsOver(st: Stats, s: seq<FileNode>): Stats
    decreases |s|
  {
    if s == [] then st else StatsOver(StatsStep(st, s[0]), s[1..])
  }

  function CountFiles(s: seq<FileNode>): nat {
    if s == [] then 0 else (if s[0].kind == File then 1 else 0) + CountFiles(s[1..])
  }

  function SumFileSizes(s: seq<FileNode>): int {
    if s == [] then 0 else (if s[0].kind == File then s[0].size else 0) + SumFileSizes(s[1..])
  }

  /**
   * s[i] is the file the statistics name as largest, and every file visited
   * before it is strictly smaller.
   */
  ghost predicate FirstLargest(s: seq<FileNode>, i: int, res: Stats)
    requires 0 <= i < |s|
  {
    && s[i].kind == File && s[i].size == res.largestFileSize && res.largestFile == Some(s[i].name)
    && forall j | 0 <= j < i && s[j].kind == File :: s[j].size < res.largestFileSize
  }

  /**
   * The statistics count files and directories, sum the sizes of files only,
   * and report the largest file size seen (the first such file in visiting
   * order, since only a strictly larger size replaces it).
   */
  lemma {:induction false} StatsOverCounts(st: Stats, s: seq<FileNode>)
    ensures StatsOver(st, s).totalFiles == st.totalFiles + CountFiles(s)
    ensures StatsOver(st, s).totalDirectories == st.totalDirectories + |s| - CountFiles(s)
    ensures StatsOver(st, s).totalSize == st.totalSize + SumFileSizes(s)
    ensures StatsOver(st, s).largestFileSize >= st.largestFileSize
    ensures forall f | f in s && f.kind == File :: StatsOver(st, s).largestFileSize >= f.size
    ensures StatsOver(st, s).largestFileSize == st.largestFileSize ==> StatsOver(st, s).largestFile == st.largestFile
    ensures StatsOver(st, s).largestFileSize != st.largestFileSize ==>
      exists i | 0 <= i < |s| :: FirstLargest(s, i, StatsOver(st, s))
    decreases |s|
  {
    if s != [] {
      var st1 := StatsStep(st, s[0]);
      StatsOverCounts(st1, s[1..]);
      var res := StatsOver(st, s);
      assert res == StatsOver(st1, s[1..]);
      forall f | f in s && f.kind == File ensures res.largestFileSize >= f.size {
        if f != s[0] { assert f in s[1..]; }
      }
      if res.largestFileSize != st.largestFileSize {
        if res.largestFileSize == st1.largestFileSize {
          assert FirstLargest(s, 0, res);
        } else {
          var i :| 0 <= i < |s[1..]| && FirstLargest(s[1..], i, res);
          assert s[0].kind == File ==> s[0].size <= st1.largestFileSize < res.largestFileSize;
          assert FirstLargest(s, i + 1, res);
        }
      }
    }
  }

  // ---------------------------------------------------------------------
  // The navigator
  // ---------------------------------------------------------------------

  class FileSystemBST {
    var root: Tree

    ghost predicate Valid()
      reads this
    {
      IsBST(root)
    }

    constructor ()
      ensures Valid() && root == Nil
    {
      root := Nil;
    }

    /** IsEmpty: no entry is stored. */
    function IsEmpty(): (r: bool)
      reads this
      ensures r <==> InOrder(root) == []
    {
      root.Nil?
    }

    /**
     * CreateFile: refused when a name-only lookup finds the name; otherwise
     * InsertNode is applied once. `extension` is what the FileNode
     * constructor derives from the name.
     */
    method CreateFile(fileName: string, size: int, extension: string) returns (created: bool)
      requires Valid()
      modifies this
      ensures Valid()
      ensures created <==> SearchNode(old(root), fileName).None?
      ensures !created ==> root == old(root)
      ensures created ==> root == InsertNode(old(root), FileNode(fileName, File, size, extension))
    {
      var newFile := FileNode(fileName, File, size, extension);
      if SearchNode(root, fileName).Some? {
        return false;
      }
      InsertNodeKeepsBST(root, newFile);
      root := InsertNode(root, newFile);
      return true;
    }

    /** CreateDirectory: as CreateFile, for a Directory of size 0. */
    method CreateDirectory(directoryName: string, extension: string) returns (created: bool)
      requires Valid()
      modifies this
      ensures Valid()
      ensures created <==> SearchNode(old(root), directoryName).None?
      ensures !created ==> root == old(root)
      ensures created ==> root == InsertNode(old(root), FileNode(directoryName, Directory, 0, extension))
    {
      var newDir := FileNode(directoryName, Directory, 0, extension);
      if SearchNode(root, directoryName).Some? {
        return false;
      }
      InsertNodeKeepsBST(root, newDir);
      root := InsertNode(root, newDir);
      return true;
    }

    /** FindFile: a found entry is stored and has the queried name, ignoring case. */
    method FindFile(fileName: string) returns (found: Option<FileNode>)
      ensures found == SearchNode(root, fileName)
      ensures found.Some? ==> found.value in InOrder(root) && FoldEq(fileName, found.value.name)
    {
      found := SearchNode(root, fileName);
    }

    /** TraverseAndCollect: appends, in in-order sequence, exactly the entries the filter accepts. */
    static method TraverseAndCollect(node: Tree, collection: seq<FileNode>, filter: FileNode -> bool)
      returns (out: seq<FileNode>)
      ensures out == collection + Filter(InOrder(node), filter)
    {
      out := collection;
      if node.Nil? {
        return;
      }
      out := TraverseAndCollect(node.left, out, filter);
      if filter(node.data) {
        out := out + [node.data];
      }
      out := TraverseAndCollect(node.right, out, filter);
      FilterNode(node.left, node.data, node.right, filter);
    }

    /**
     * FindFilesByExtension: exactly the Files whose extension matches the
     * dotted query case-insensitively, in tree order (sorted on a valid tree).
     */
    method FindFilesByExtension(extension: string) returns (results: seq<FileNode>)
      requires Valid()
      ensures results == Filter(InOrder(root), ExtensionFilter(Dotted(extension)))
      ensures forall f :: f in results <==> f in InOrder(root) && f.kind == File && FoldEq(f.extension, Dotted(extension))
      ensures StrictlySorted(results)
    {
      var ext := extension;
      if !StartsWith(ext, ".") {
        ext := "." + ext;
      }
      results := TraverseAndCollect(root, [], ExtensionFilter(ext));
      assert [] + Filter(InOrder(root), ExtensionFilter(ext)) == Filter(InOrder(root), ExtensionFilter(ext));
      BSTIffSorted(root);
      FilterSorted(InOrder(root), ExtensionFilter(ext));
      FilterMembers(InOrder(root), ExtensionFilter(ext));
    }

    /**
     * FindFilesBySize: empty when the range is inverted; otherwise exactly the
     * Files with a size in the inclusive range, in tree order.
     */
    method FindFilesBySize(minSize: int, maxSize: int) returns (results: seq<FileNode>)
      requires Valid()
      ensures minSize > maxSize ==> results == []
      ensures minSize <= maxSize ==> results == Filter(InOrder(root), SizeFilter(minSize, maxSize))
      ensures forall f :: f in results <==> f in InOrder(root) && f.kind == File && minSize <= f.size <= maxSize
      ensures StrictlySorted(results)
    {
      if minSize > maxSize {
        return [];
      }
      results := TraverseAndCollect(root, [], SizeFilter(minSize, maxSize));
      assert [] + Filter(InOrder(root), SizeFilter(minSize, maxSize)) == Filter(InOrder(root), SizeFilter(minSize, maxSize));
      BSTIffSorted(root);
      FilterSorted(InOrder(root), SizeFilter(minSize, maxSize));
      FilterMembers(InOrder(root), SizeFilter(minSize, maxSize));
    }

    /**
     * FindLargestFiles: empty for a count that is not positive; otherwise the
     * first `count` entries (or all, if fewer) of the Files ordered by size,
     * largest first, ties in tree order.
     */
    method FindLargestFiles(count: int) returns (results: seq<FileNode>)
      ensures count <= 0 ==> results == []
      ensures count > 0 ==> |results| == Min(count, |Filter(InOrder(root), IsFile())|)
      ensures count > 0 ==> results == SortBySizeDesc(Filter(InOrder(root), IsFile()))[..|results|]
      ensures forall f | f in results :: f.kind == File && f in InOrder(root)
      ensures NonIncreasing(results)
    {
      if count <= 0 {
        return [];
      }
      var allFiles := TraverseAndCollect(root, [], IsFile());
      assert allFiles == Filter(InOrder(root), IsFile());
      var sorted := SortBySizeDesc(allFiles);
      results := sorted[..Min(count, |sorted|)];
      LargestPrefix(allFiles, Min(count, |sorted|));
      FilesOnly(InOrder(root));
    }

    /** AccumulateSizes: adds the size of every entry below `node` to `total`. */
    static method AccumulateSizes(node: Tree, total: int) returns (sum: int)
      ensures sum == total + SumSizes(InOrder(node))
    {
      sum := total;
      if node.Nil? {
        return;
      }
      sum := AccumulateSizes(node.left, sum);
      sum := sum + node.data.size;
      sum := AccumulateSizes(node.right, sum);
      SumSizesConcat(InOrder(node.left), [node.data]);
      SumSizesConcat(InOrder(node.left) + [node.data], InOrder(node.right));
    }

    /** CalculateTotalSize: the sum of every entry's size, directories included; 0 when empty. */
    method CalculateTotalSize() returns (total: int)
      ensures total == SumSizes(InOrder(root))
      ensures root == Nil ==> total == 0
    {
      total := AccumulateSizes(root, 0);
    }

    /** CalculateStats: visits node, left subtree, right subtree, updating the statistics. */
    static method CalculateStats(node: Tree, stats: Stats) returns (result: Stats)
      ensures result == StatsOver(stats, PreOrder(node))
    {
      if node.Nil? {
        return stats;
      }
      var st := StatsStep(stats, node.data);
      st := CalculateStats(node.left, st);
      result := CalculateStats(node.right, st);
      StatsOverNode(stats, node.left, node.data, node.right);
    }

    /**
     * DeleteItem: walks down by name only, keeping the path to the current
     * node; a node with two children takes its in-order successor's entry and
     * the successor's position is spliced out instead.
     */
    method DeleteItem(fileName: string) returns (deleted: bool)
      requires Valid()
      modifies this
      ensures Valid()
      ensures (root, deleted) == Delete(old(root), fileName)
      ensures deleted <==> SearchNode(old(root), fileName).Some?
      ensures !deleted ==> root == old(root)
    {
      DeleteIffFound(root, fileName);
      DeleteKeepsBST(root, fileName);
      var path := Top;
      var current := root;
      while current.Node? && CompareIgnoreCase(fileName, current.data.name) != 0
        invariant Plug(path, current) == old(root)
        invariant NameDescent(path, fileName)
        decreases current
      {
        if CompareIgnoreCase(fileName, current.data.name) < 0 {
          path := LeftOf(current.data, current.right, path);
          current := current.left;
        } else {
          path := RightOf(current.left, current.data, path);
          current := current.right;
        }
      }
      DeletePlug(path, current, fileName);
      if current.Nil? {
        return false;
      }
      if current.left.Node? && current.right.Node? {
        var target := current;
        var successorPath := Top;
        var successor := target.right;
        while successor.left.Node?
          invariant successor.Node? && LeftSpine(successorPath)
          invariant Plug(successorPath, successor) == target.right
          decreases successor
        {
          successorPath := LeftOf(successor.data, successor.right, successorPath);
          successor := successor.left;
        }
        RemoveMinPlug(successorPath, successor);
        PlugAppend(successorPath, RightOf(target.left, successor.data, path), successor.right);
        // the target now holds the successor's entry; the successor is the node to splice out
        path := Append(successorPath, RightOf(target.left, successor.data, path));
        current := successor;
      }
      var child := if current.left.Node? then current.left else current.right;
      root := Plug(path, child);
      return true;
    }
  }

  /** The filtered in-order sequence of a node: left subtree, the node, right subtree. */
  lemma FilterNode(l: Tree, d: FileNode, r: Tree, f: FileNode -> bool)
    ensures Filter(InOrder(Node(l, d, r)), f) == Filter(InOrder(l), f) + (if f(d) then [d] else []) + Filter(InOrder(r), f)
  {
    FilterConcat(InOrder(l), [d], f);
    FilterConcat(InOrder(l) + [d], InOrder(r), f);
    assert Filter([d], f) == if f(d) then [d] else [];
  }

  lemma StatsOverNode(st: Stats, l: Tree, d: FileNode, r: Tree)
    ensures StatsOver(st, PreOrder(Node(l, d, r))) == StatsOver(StatsOver(StatsStep(st, d), PreOrder(l)), PreOrder(r))
  {
    var rest := PreOrder(l) + PreOrder(r);
    assert PreOrder(Node(l, d, r)) == [d] + rest;
    assert ([d] + rest)[1..] == rest;
    StatsOverConcat(StatsStep(st, d), PreOrder(l), PreOrder(r));
  }

  lemma {:induction false} StatsOverConcat(st: Stats, a: seq<FileNode>, b: seq<FileNode>)
    ensures StatsOver(st, a + b) == StatsOver(StatsOver(st, a), b)
    decreases |a|
  {
    if a == [] {
      assert a + b == b;
    } else {
      assert (a + b)[0] == a[0] && (a + b)[1..] == a[1..] + b;
      StatsOverConcat(StatsStep(st, a[0]), a[1..], b);
    }
  }

  // ---------------------------------------------------------------------
  // Name-only lookup against kind-first placement
  // ---------------------------------------------------------------------

  /** A directory "b" at the root and a file "a" to its right: every file orders after every directory. */
  function MixedTree(): Tree {
    Node(Nil, FileNode("b", Directory, 0, ""), Node(Nil, FileNode("a", File, 10, ".txt"), Nil))
  }

  /** Lookup and deletion by "a" descend left of "b" and miss the file "a" that the valid tree holds. */
  lemma LookupMissesStoredFile()
    ensures IsBST(MixedTree())
    ensures FileNode("a", File, 10, ".txt") in InOrder(MixedTree())
    ensures SearchNode(MixedTree(), "a") == None
    ensures Delete(MixedTree(), "a") == (MixedTree(), false)
  {
    assert Upper("a") == ['A'];
    assert Upper("b") == ['B'];
    assert CompareFileNodes(FileNode("b", Directory, 0, ""), FileNode("a", File, 10, ".txt")) < 0;
  }

  /**
   * CreateFile("A") on that tree passes the duplicate check, yet InsertNode
   * meets the equal key of file "a" and changes nothing: CreateFile reports
   * success without inserting.
   */
  lemma CreateFileSilentNoOp()
    ensures SearchNode(MixedTree(), "A") == None
    ensures InsertNode(MixedTree(), FileNode("A", File, 5, ".txt")) == MixedTree()
  {
    assert Upper("A") == ['A'];
    assert Upper("a") == ['A'];
    assert Upper("b") == ['B'];
  }

  /** CreateDirectory("a") on that tree inserts a second entry named "a". */
  lemma CreateDirectoryDuplicateName()
    ensures SearchNode(MixedTree(), "a") == None
    ensures InOrder(InsertNode(MixedTree(), FileNode("a", Directory, 0, ""))) ==
      [FileNode("a", Directory, 0, ""), FileNode("b", Directory, 0, ""), FileNode("a", File, 10, ".txt")]
  {
    assert Upper("a") == ['A'];
    assert Upper("b") == ['B'];
  }
}
