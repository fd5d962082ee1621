/**
 * The tree of the file-system navigator (FileSystemBST.cs) as a value.
 *
 * Each node owns its entry and its two children, so a tree is a plain
 * datatype; the navigator class (module FileSystemNavigator) keeps one in its
 * `root` field and replaces it as the source rewires nodes.
 *
 * Placement uses `CompareFileNodes` (every Directory before every File, then
 * the case-insensitive name), but lookup and deletion descend by comparing
 * names only. Both are modelled as written; the consequences are stated as
 * lemmas at the end of this module.
 */
module FileSystemTree {
  import opened Wrappers
  import opened Text

  datatype FileType = Directory | File

  /** One file-system item. `extension` is computed by the FileNode constructor, which is not part of this model. */
  datatype FileNode = FileNode(name: string, kind: FileType, size: int, extension: string)

  datatype Tree = Nil | Node(left: Tree, data: FileNode, right: Tree)

  // ---------------------------------------------------------------------
  // Ordering
  // ---------------------------------------------------------------------

  /** Directories before files; entries of one kind by case-insensitive name. */
  function CompareFileNodes(a: FileNode, b: FileNode): (r: int)
    ensures -1 <= r <= 1
  {
    if a.kind != b.kind then (if a.kind == Directory then -1 else 1)
    else CompareIgnoreCase(a.name, b.name)
  }

  predicate Lt(a: FileNode, b: FileNode) { CompareFileNodes(a, b) < 0 }

  /** Two entries are the same key when they have one kind and case-insensitively equal names. */
  predicate SameKey(a: FileNode, b: FileNode) { a.kind == b.kind && FoldEq(a.name, b.name) }

  /**
   * The comparator is a total order on (kind, folded name): a Directory is
   * below every File whatever the names, it is antisymmetric, it is zero
   * exactly on equal keys, and it is transitive.
   */
  lemma CompareFileNodesOrder(a: FileNode, b: FileNode, c: FileNode)
    ensures a.kind == Directory && b.kind == File ==> CompareFileNodes(a, b) < 0
    ensures CompareFileNodes(a, b) == -CompareFileNodes(b, a)
    ensures CompareFileNodes(a, b) == 0 <==> SameKey(a, b)
    ensures Lt(a, b) && Lt(b, c) ==> Lt(a, c)
  {
    CompareIgnoreCaseAntisymmetric(a.name, b.name);
    if Lt(a, b) && Lt(b, c) && a.kind == b.kind && b.kind == c.kind {
      CompareOrdinalTransitive(Upper(a.name), Upper(b.name), Upper(c.name));
    }
  }

  lemma LtTransitive(a: FileNode, b: FileNode, c: FileNode)
    requires Lt(a, b) && Lt(b, c)
    ensures Lt(a, c)
  {
    CompareFileNodesOrder(a, b, c);
  }

  lemma LtAsymmetric(a: FileNode, b: FileNode)
    ensures !(Lt(a, b) && Lt(b, a))
    ensures !Lt(a, a)
  {
    CompareFileNodesOrder(a, b, a);
    CompareFileNodesOrder(a, a, a);
  }

  /** Entries with equal keys compare the same way with every third entry. */
  lemma SameKeyCompare(a: FileNode, a': FileNode, b: FileNode)
    requires SameKey(a, a')
    ensures CompareFileNodes(a, b) == CompareFileNodes(a', b)
  {
  }

  // ---------------------------------------------------------------------
  // In-order sequence and the ordering invariant
  // ---------------------------------------------------------------------

  function InOrder(t: Tree): seq<FileNode> {
    match t
    case Nil => []
    case Node(l, d, r) => InOrder(l) + [d] + InOrder(r)
  }

  /** Every entry of a left subtree orders before its node, every entry of a right subtree after. */
  ghost predicate IsBST(t: Tree) {
    match t
    case Nil => true
    case Node(l, d, r) =>
      && IsBST(l) && IsBST(r)
      && (forall x | x in InOrder(l) :: Lt(x, d))
      && (forall x | x in InOrder(r) :: Lt(d, x))
  }

  ghost predicate StrictlySorted(s: seq<FileNode>) {
    forall i, j | 0 <= i < j < |s| :: Lt(s[i], s[j])
  }

  lemma SortedCons(x: FileNode, s: seq<FileNode>)
    ensures StrictlySorted([x] + s) <==> StrictlySorted(s) && forall y | y in s :: Lt(x, y)
  {
    var t := [x] + s;
    if StrictlySorted(s) && forall y | y in s :: Lt(x, y) {
      forall i, j | 0 <= i < j < |t| ensures Lt(t[i], t[j]) {
        if i == 0 { assert t[j] == s[j - 1]; } else { assert t[i] == s[i - 1] && t[j] == s[j - 1]; }
      }
    }
    if StrictlySorted(t) {
      forall i, j | 0 <= i < j < |s| ensures Lt(s[i], s[j]) { assert s[i] == t[i + 1] && s[j] == t[j + 1]; }
      forall y | y in s ensures Lt(x, y) {
        var j :| 0 <= j < |s| && s[j] == y;
        assert t[0] == x && t[j + 1] == y;
      }
    }
  }

  lemma SortedSplit(a: seq<FileNode>, d: FileNode, b: seq<FileNode>)
    ensures StrictlySorted(a + [d] + b) <==>
      && StrictlySorted(a) && StrictlySorted(b)
      && (forall x | x in a :: Lt(x, d)) && (forall y | y in b :: Lt(d, y))
  {
    var s := a + [d] + b;
    if StrictlySorted(s) {
      forall i, j | 0 <= i < j < |a| ensures Lt(a[i], a[j]) { assert a[i] == s[i] && a[j] == s[j]; }
      forall i, j | 0 <= i < j < |b| ensures Lt(b[i], b[j]) {
        assert b[i] == s[|a| + 1 + i] && b[j] == s[|a| + 1 + j];
      }
      forall x | x in a ensures Lt(x, d) {
        var i :| 0 <= i < |a| && a[i] == x;
        assert s[i] == x && s[|a|] == d;
      }
      forall y | y in b ensures Lt(d, y) {
        var j :| 0 <= j < |b| && b[j] == y;
        assert s[|a| + 1 + j] == y && s[|a|] == d;
      }
    }
    if && StrictlySorted(a) && StrictlySorted(b)
       && (forall x | x in a :: Lt(x, d)) && (forall y | y in b :: Lt(d, y))
    {
      forall i, j | 0 <= i < j < |s| ensures Lt(s[i], s[j]) {
        if j < |a| {
          assert s[i] == a[i] && s[j] == a[j];
        } else if j == |a| {
          assert s[i] == a[i] && s[j] == d;
        } else if i < |a| {
          assert s[i] == a[i] && s[j] == b[j - |a| - 1];
          assert a[i] in a && b[j - |a| - 1] in b;
          LtTransitive(s[i], d, s[j]);
        } else if i == |a| {
          assert s[j] == b[j - |a| - 1];
        } else {
          assert s[i] == b[i - |a| - 1] && s[j] == b[j - |a| - 1];
        }
      }
    }
  }

  /** The ordering invariant holds exactly when the in-order sequence is strictly sorted. */
  lemma {:induction false} BSTIffSorted(t: Tree)
    ensures IsBST(t) <==> StrictlySorted(InOrder(t))
  {
    match t
    case Nil =>
    case Node(l, d, r) =>
      BSTIffSorted(l);
      BSTIffSorted(r);
      SortedSplit(InOrder(l), d, InOrder(r));
  }

  // ---------------------------------------------------------------------
  // Lookup (SearchNode): descends by name only
  // ---------------------------------------------------------------------

  /** SearchNode: a result is an entry of the tree whose name equals the query case-insensitively. */
  function SearchNode(t: Tree, fileName: string): (r: Option<FileNode>)
    ensures r.Some? ==> r.value in InOrder(t) && FoldEq(fileName, r.value.name)
  {
    match t
    case Nil => None
    case Node(l, d, rt) =>
      var cmp := CompareIgnoreCase(fileName, d.name);
      if cmp == 0 then Some(d)
      else if cmp < 0 then SearchNode(l, fileName)
      else SearchNode(rt, fileName)
  }

  /** Every entry of the tree has kind `k`. */
  ghost predicate AllOfKind(t: Tree, k: FileType) {
    forall x | x in InOrder(t) :: x.kind == k
  }

  /**
   * Lookup is complete when name order agrees with placement, as in a tree
   * holding entries of one kind only: a present name is always found.
   */
  lemma {:induction false} SearchCompleteSingleKind(t: Tree, fileName: string, k: FileType, x: FileNode)
    requires IsBST(t) && AllOfKind(t, k)
    requires x in InOrder(t) && FoldEq(x.name, fileName)
    ensures SearchNode(t, fileName).Some?
  {
    match t
    case Nil =>
    case Node(l, d, r) =>
      var cmp := CompareIgnoreCase(fileName, d.name);
      CompareIgnoreCaseFold(fileName, x.name, d.name);
      CompareIgnoreCaseAntisymmetric(x.name, d.name);
      if cmp < 0 {
        assert x in InOrder(l);
        SearchCompleteSingleKind(l, fileName, k, x);
      } else if cmp > 0 {
        assert x in InOrder(r);
        SearchCompleteSingleKind(r, fileName, k, x);
      }
  }

  // ---------------------------------------------------------------------
  // Insertion (InsertNode): descends by the full comparator
  // ---------------------------------------------------------------------

  /** Whether InsertNode's descent for `e` meets an entry with an equal key. */
  predicate KeyOnPath(t: Tree, e: FileNode) {
    match t
    case Nil => false
    case Node(l, d, r) =>
      var cmp := CompareFileNodes(e, d);
      if cmp < 0 then KeyOnPath(l, e) else if cmp > 0 then KeyOnPath(r, e) else true
  }

  /**
   * InsertNode: returns the subtree unchanged exactly when an equal key lies
   * on the path; otherwise the tree gains exactly the one new entry.
   */
  function InsertNode(t: Tree, e: FileNode): (r: Tree)
    ensures r == t <==> KeyOnPath(t, e)
    ensures multiset(InOrder(r)) ==
      if KeyOnPath(t, e) then multiset(InOrder(t)) else multiset(InOrder(t)) + multiset{e}
  {
    match t
    case Nil => Node(Nil, e, Nil)
    case Node(l, d, rt) =>
      var cmp := CompareFileNodes(e, d);
      if cmp < 0 then Node(InsertNode(l, e), d, rt)
      else if cmp > 0 then Node(l, d, InsertNode(rt, e))
      else t
  }

  /** The entries of a subtree after insertion are its old entries and the new one. */
  lemma InsertNodeEntries(t: Tree, e: FileNode, x: FileNode)
    requires x in InOrder(InsertNode(t, e))
    ensures x in InOrder(t) || x == e
  {
    assert x in multiset(InOrder(InsertNode(t, e)));
  }

  /** Insertion keeps the ordering invariant. */
  lemma {:induction false} InsertNodeKeepsBST(t: Tree, e: FileNode)
    requires IsBST(t)
    ensures IsBST(InsertNode(t, e))
  {
    match t
    case Nil =>
    case Node(l, d, r) =>
      var cmp := CompareFileNodes(e, d);
      CompareFileNodesOrder(e, d, d);
      if cmp < 0 {
        var l' := InsertNode(l, e);
        InsertNodeKeepsBST(l, e);
        forall x | x in InOrder(l') ensures Lt(x, d) {
          InsertNodeEntries(l, e, x);
        }
        assert InsertNode(t, e) == Node(l', d, r);
      } else if cmp > 0 {
        var r' := InsertNode(r, e);
        InsertNodeKeepsBST(r, e);
        forall x | x in InOrder(r') ensures Lt(d, x) {
          InsertNodeEntries(r, e, x);
        }
        assert InsertNode(t, e) == Node(l, d, r');
      }
  }

  /** Some entry of the tree has the same key as `e`. */
  ghost predicate HasKey(t: Tree, e: FileNode) {
    exists x | x in InOrder(t) :: SameKey(e, x)
  }

  /** On an ordered tree an equal key is on the insertion path exactly when it is in the tree. */
  lemma {:induction false} KeyOnPathIffHasKey(t: Tree, e: FileNode)
    requires IsBST(t)
    ensures KeyOnPath(t, e) <==> HasKey(t, e)
  {
    match t
    case Nil =>
    case Node(l, d, r) =>
      CompareFileNodesOrder(e, d, d);
      KeyOnPathIffHasKey(l, e);
      KeyOnPathIffHasKey(r, e);
      if HasKey(t, e) {
        var x :| x in InOrder(t) && SameKey(e, x);
        SameKeyCompare(e, x, d);
        CompareFileNodesOrder(x, d, d);
        if CompareFileNodes(e, d) < 0 {
          assert x in InOrder(l);
        } else if CompareFileNodes(e, d) > 0 {
          assert x in InOrder(r);
        }
      }
  }

  /**
   * On an ordered tree insertion adds the entry exactly when no entry with
   * the same key is present, and otherwise changes nothing.
   */
  lemma InsertNodeAddsIffAbsent(t: Tree, e: FileNode)
    requires IsBST(t)
    ensures HasKey(t, e) ==> InsertNode(t, e) == t
    ensures !HasKey(t, e) ==> multiset(InOrder(InsertNode(t, e))) == multiset(InOrder(t)) + multiset{e}
  {
    KeyOnPathIffHasKey(t, e);
  }

  // ---------------------------------------------------------------------
  // Traversal with a filter
  // ---------------------------------------------------------------------

  /** The entries of `s` that satisfy `f`, in order. */
  function Filter(s: seq<FileNode>, f: FileNode -> bool): (r: seq<FileNode>)
    ensures |r| <= |s|
  {
    if s == [] then [] else (if f(s[0]) then [s[0]] else []) + Filter(s[1..], f)
  }

  /** The filter keeps exactly the entries it accepts. */
  lemma {:induction false} FilterMembers(s: seq<FileNode>, f: FileNode -> bool)
    ensures forall x :: x in Filter(s, f) <==> x in s && f(x)
  {
    if s != [] {
      FilterMembers(s[1..], f);
      assert s == [s[0]] + s[1..];
    }
  }

  lemma {:induction false} FilterConcat(a: seq<FileNode>, b: seq<FileNode>, f: FileNode -> bool)
    ensures Filter(a + b, f) == Filter(a, f) + Filter(b, f)
  {
    if a != [] {
      assert (a + b)[0] == a[0] && (a + b)[1..] == a[1..] + b;
      FilterConcat(a[1..], b, f);
      var h := if f(a[0]) then [a[0]] else [];
      calc {
        Filter(a + b, f);
        h + Filter(a[1..] + b, f);
        h + (Filter(a[1..], f) + Filter(b, f));
        (h + Filter(a[1..], f)) + Filter(b, f);
        Filter(a, f) + Filter(b, f);
      }
    } else {
      assert a + b == b;
    }
  }

  /** Filtering keeps the order: the output of a sorted sequence is sorted. */
  lemma {:induction false} FilterSorted(s: seq<FileNode>, f: FileNode -> bool)
    requires StrictlySorted(s)
    ensures StrictlySorted(Filter(s, f))
  {
    if s != [] {
      assert s == [s[0]] + s[1..];
      SortedCons(s[0], s[1..]);
      FilterSorted(s[1..], f);
      FilterMembers(s[1..], f);
      if f(s[0]) {
        SortedCons(s[0], Filter(s[1..], f));
      }
    }
  }

  function SumSizes(s: seq<FileNode>): int {
    if s == [] then 0 else s[0].size + SumSizes(s[1..])
  }

  lemma {:induction false} SumSizesConcat(a: seq<FileNode>, b: seq<FileNode>)
    ensures SumSizes(a + b) == SumSizes(a) + SumSizes(b)
  {
    if a != [] {
      assert (a + b)[0] == a[0] && (a + b)[1..] == a[1..] + b;
      SumSizesConcat(a[1..], b);
    } else {
      assert a + b == b;
    }
  }

  // ---------------------------------------------------------------------
  // Deletion
  // ---------------------------------------------------------------------

  /** Leftmost entry of a non-empty tree and the tree without it. */
  function RemoveMin(t: Tree): (FileNode, Tree)
    requires t.Node?
  {
    if t.left.Nil? then (t.data, t.right)
    else
      var (m, l') := RemoveMin(t.left);
      (m, Node(l', t.data, t.right))
  }

  /** Removes the entry `d` of a node: a node with two children takes its in-order successor's entry. */
  function RemoveRoot(l: Tree, d: FileNode, r: Tree): Tree {
    if l.Node? && r.Node? then
      var (m, r') := RemoveMin(r);
      Node(l, m, r')
    else if l.Node? then l
    else r
  }

  /** Delete by name-only descent: the tree afterwards and whether an entry was removed. */
  function Delete(t: Tree, fileName: string): (Tree, bool) {
    match t
    case Nil => (Nil, false)
    case Node(l, d, r) =>
      var cmp := CompareIgnoreCase(fileName, d.name);
      if cmp == 0 then (RemoveRoot(l, d, r), true)
      else if cmp < 0 then
        var (l', ok) := Delete(l, fileName);
        (Node(l', d, r), ok)
      else
        var (r', ok) := Delete(r, fileName);
        (Node(l, d, r'), ok)
  }

  lemma {:induction false} RemoveMinInOrder(t: Tree)
    requires t.Node?
    ensures InOrder(t) == [RemoveMin(t).0] + InOrder(RemoveMin(t).1)
  {
    if t.left.Node? {
      RemoveMinInOrder(t.left);
    }
  }

  /** Removing a node's entry leaves the in-order sequence of both subtrees, in order. */
  lemma RemoveRootInOrder(l: Tree, d: FileNode, r: Tree)
    ensures InOrder(RemoveRoot(l, d, r)) == InOrder(l) + InOrder(r)
  {
    if l.Node? && r.Node? {
      RemoveMinInOrder(r);
    }
  }

  /** Deletion removes an entry exactly when lookup finds one, and otherwise leaves the tree unchanged. */
  lemma {:induction false} DeleteIffFound(t: Tree, fileName: string)
    ensures Delete(t, fileName).1 <==> SearchNode(t, fileName).Some?
    ensures SearchNode(t, fileName).None? ==> Delete(t, fileName).0 == t
  {
    match t
    case Nil =>
    case Node(l, d, r) =>
      DeleteIffFound(l, fileName);
      DeleteIffFound(r, fileName);
  }

  /** A found entry is removed as exactly one occurrence of the in-order sequence. */
  lemma {:induction false} DeleteRemovesOne(t: Tree, fileName: string) returns (i: nat)
    requires SearchNode(t, fileName).Some?
    ensures i < |InOrder(t)| && InOrder(t)[i] == SearchNode(t, fileName).value
    ensures InOrder(Delete(t, fileName).0) == InOrder(t)[..i] + InOrder(t)[i + 1..]
  {
    var Node(l, d, r) := t;
    var cmp := CompareIgnoreCase(fileName, d.name);
    var L, R := InOrder(l), InOrder(r);
    var s := InOrder(t);
    if cmp == 0 {
      i := |L|;
      RemoveRootInOrder(l, d, r);
      SliceAtRoot(L, d, R);
    } else if cmp < 0 {
      var j := DeleteRemovesOne(l, fileName);
      i := j;
      SliceInLeft(L, d, R, j);
    } else {
      var j := DeleteRemovesOne(r, fileName);
      i := |L| + 1 + j;
      SliceInRight(L, d, R, j);
    }
  }

  /** Cutting the root out of an in-order sequence `L + [d] + R`. */
  lemma SliceAtRoot<T>(L: seq<T>, d: T, R: seq<T>)
    ensures (L + [d] + R)[|L|] == d
    ensures (L + [d] + R)[..|L|] + (L + [d] + R)[|L| + 1..] == L + R
  {
    var s := L + [d] + R;
    assert s[..|L|] == L && s[|L| + 1..] == R;
  }

  /** Cutting position j of the left part out of an in-order sequence `L + [d] + R`. */
  lemma SliceInLeft<T>(L: seq<T>, d: T, R: seq<T>, j: nat)
    requires j < |L|
    ensures (L + [d] + R)[j] == L[j]
    ensures (L + [d] + R)[..j] + (L + [d] + R)[j + 1..] == (L[..j] + L[j + 1..]) + [d] + R
  {
    var s := L + [d] + R;
    assert s[..j] == L[..j];
    assert s[j + 1..] == L[j + 1..] + [d] + R;
  }

  /** Cutting position j of the right part out of an in-order sequence `L + [d] + R`. */
  lemma SliceInRight<T>(L: seq<T>, d: T, R: seq<T>, j: nat)
    requires j < |R|
    ensures (L + [d] + R)[|L| + 1 + j] == R[j]
    ensures (L + [d] + R)[..|L| + 1 + j] + (L + [d] + R)[|L| + 1 + j + 1..] == L + [d] + (R[..j] + R[j + 1..])
  {
    var s := L + [d] + R;
    assert s[..|L| + 1 + j] == L + [d] + R[..j];
    assert s[|L| + 1 + j + 1..] == R[j + 1..];
  }

  /** Deletion keeps the ordering invariant. */
  lemma DeleteKeepsBST(t: Tree, fileName: string)
    requires IsBST(t)
    ensures IsBST(Delete(t, fileName).0)
  {
    DeleteIffFound(t, fileName);
    if SearchNode(t, fileName).Some? {
      var i := DeleteRemovesOne(t, fileName);
      var s := InOrder(t);
      var s' := InOrder(Delete(t, fileName).0);
      BSTIffSorted(t);
      BSTIffSorted(Delete(t, fileName).0);
      forall a, b | 0 <= a < b < |s'| ensures Lt(s'[a], s'[b]) {
        var a', b' := if a < i then a else a + 1, if b < i then b else b + 1;
        assert s'[a] == s[a'] && s'[b] == s[b'];
      }
    }
  }

  /** Deleting a found entry lowers the total size by exactly that entry's size. */
  lemma DeleteTotalSize(t: Tree, fileName: string)
    requires SearchNode(t, fileName).Some?
    ensures SumSizes(InOrder(Delete(t, fileName).0)) == SumSizes(InOrder(t)) - SearchNode(t, fileName).value.size
  {
    var i := DeleteRemovesOne(t, fileName);
    var s := InOrder(t);
    assert s == s[..i] + ([s[i]] + s[i + 1..]);
    SumSizesConcat(s[..i], [s[i]] + s[i + 1..]);
    SumSizesConcat([s[i]], s[i + 1..]);
    SumSizesConcat(s[..i], s[i + 1..]);
  }

  // ---------------------------------------------------------------------
  // Paths from the root, for the iterative descent of DeleteItem
  // ---------------------------------------------------------------------

  /** The ancestors of the current position, nearest first; `parent` is the entry of the node above. */
  datatype Path =
    | Top
    | LeftOf(parent: FileNode, sibling: Tree, up: Path)
    | RightOf(sibling: Tree, parent: FileNode, up: Path)

  /** Puts `t` back at the position the path describes. */
  function Plug(p: Path, t: Tree): Tree {
    match p
    case Top => t
    case LeftOf(d, r, up) => Plug(up, Node(t, d, r))
    case RightOf(l, d, up) => Plug(up, Node(l, d, t))
  }

  /** Each step of the path is the one the name-only descent for `fileName` takes. */
  predicate NameDescent(p: Path, fileName: string) {
    match p
    case Top => true
    case LeftOf(d, _, up) => CompareIgnoreCase(fileName, d.name) < 0 && NameDescent(up, fileName)
    case RightOf(_, d, up) => CompareIgnoreCase(fileName, d.name) > 0 && NameDescent(up, fileName)
  }

  /** A path of left turns only (the walk to an in-order successor). */
  predicate LeftSpine(p: Path) {
    match p
    case Top => true
    case LeftOf(_, _, up) => LeftSpine(up)
    case RightOf(_, _, _) => false
  }

  /** `inner` continued by `outer` in place of its top. */
  function Append(inner: Path, outer: Path): Path {
    match inner
    case Top => outer
    case LeftOf(d, r, up) => LeftOf(d, r, Append(up, outer))
    case RightOf(l, d, up) => RightOf(l, d, Append(up, outer))
  }

  lemma {:induction false} PlugAppend(inner: Path, outer: Path, t: Tree)
    ensures Plug(Append(inner, outer), t) == Plug(outer, Plug(inner, t))
  {
    match inner
    case Top =>
    case LeftOf(d, r, up) => PlugAppend(up, outer, Node(t, d, r));
    case RightOf(l, d, up) => PlugAppend(up, outer, Node(l, d, t));
  }

  /** Deleting below a descent path is deleting in the subtree and plugging it back. */
  lemma {:induction false} DeletePlug(p: Path, t: Tree, fileName: string)
    requires NameDescent(p, fileName)
    ensures Delete(Plug(p, t), fileName) == (Plug(p, Delete(t, fileName).0), Delete(t, fileName).1)
  {
    match p
    case Top =>
    case LeftOf(d, r, up) => DeletePlug(up, Node(t, d, r), fileName);
    case RightOf(l, d, up) => DeletePlug(up, Node(l, d, t), fileName);
  }

  /** The leftmost entry below a left spine is the leftmost entry of the subtree at its end. */
  lemma {:induction false} RemoveMinPlug(q: Path, t: Tree)
    requires LeftSpine(q) && t.Node?
    ensures Plug(q, t).Node?
    ensures RemoveMin(Plug(q, t)) == (RemoveMin(t).0, Plug(q, RemoveMin(t).1))
  {
    match q
    case Top =>
    case LeftOf(d, r, up) => RemoveMinPlug(up, Node(t, d, r));
  }
}
