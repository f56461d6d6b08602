/** Finding elements: how a position in the tree relates to the list of elements in key order. */
module WavlSearch {
  import opened WavlTree
  import opened WavlOps
  import opened WavlMemory

  lemma {:induction false} ZipCells(path: Path<Addr>, t: Tree<Addr>)
    ensures Cells(Zip(path, t)) == Cells(t) + PathCells(path)
    decreases path
  {
    if path.Step? {
      var t' := Join(path.dir, t, path.longElm, path.key, path.at, path.longSib, path.sib);
      JoinCells(path.dir, t, path.longElm, path.key, path.at, path.longSib, path.sib);
      ZipCells(path.rest, t');
    }
  }

  lemma {:induction false} ZipParts<P>(path: Path<P>, t: Tree<P>)
    requires Balanced(Zip(path, t))
    ensures Balanced(t) && PathBalanced(path, Rank(t))
    decreases path
  {
    if path.Step? {
      var t' := Join(path.dir, t, path.longElm, path.key, path.at, path.longSib, path.sib);
      ZipParts(path.rest, t');
      SideRanks(t', path.dir);
      NodeRank(t);
      hide Zip, Balanced;
    }
  }

  /** The path to an element. */
  ghost function Locate(path: Path<Addr>, t: Tree<Addr>, a: Addr): (r: (Path<Addr>, Tree<Addr>))
    requires a in Cells(t)
    ensures r.1.Node? && r.1.at == a && Zip(r.0, r.1) == Zip(path, t)
    decreases t
  {
    if t.at == a then (path, t)
    else if a in Cells(t.left) then Locate(Down(path, t, Left), t.left, a)
    else Locate(Down(path, t, Right), t.right, a)
  }

  lemma {:induction false} LocateInPlace(m: Memory, path: Path<Addr>, t: Tree<Addr>, root: Addr, a: Addr)
    requires InPlace(m, path, t, root) && a in Cells(t)
    ensures InPlace(m, Locate(path, t, a).0, Locate(path, t, a).1, root)
    decreases t
  {
    if t.at != a {
      if a in Cells(t.left) {
        DownInPlace(m, path, t, Left, root);
        LocateInPlace(m, Down(path, t, Left), t.left, root, a);
      } else {
        DownInPlace(m, path, t, Right, root);
        LocateInPlace(m, Down(path, t, Right), t.right, root, a);
      }
    }
  }

  lemma RegroupNode<T>(a: seq<T>, b: seq<T>, c: seq<T>, d: seq<T>, e: seq<T>)
    ensures a + (b + c + d) + e == (a + b) + c + (d + e)
  {
  }

  /** The list splits at a node into what is before it and what is after it. */
  lemma NodeSplit<P>(path: Path<P>, t: Tree<P>)
    requires t.Node?
    ensures InOrder(Zip(path, t)) == (Before(path) + InOrder(t.left)) + [(t.key, t.at)] + (InOrder(t.right) + After(path))
  {
    ZipInOrder(path, t);
    assert InOrder(t) == InOrder(t.left) + [(t.key, t.at)] + InOrder(t.right);
    hide Zip, Before, After, InOrder;
    RegroupNode(Before(path), InOrder(t.left), [(t.key, t.at)], InOrder(t.right), After(path));
  }

  lemma BoundsOfParts<P>(b: seq<(nat, P)>, l: seq<(nat, P)>, key: nat)
    ensures AllBelow(b + l, key) ==> AllBelow(b, key)
    ensures AllAbove(l + b, key) ==> AllAbove(b, key)
  {
    forall i | 0 <= i < |b| ensures (b + l)[i] == b[i] && (l + b)[|l| + i] == b[i] {}
  }

  lemma NodeBounds<P>(path: Path<P>, t: Tree<P>)
    requires t.Node? && Sorted(InOrder(Zip(path, t)))
    ensures AllBelow(Before(path), t.key) && AllAbove(After(path), t.key)
  {
    hide *;
    NodeSplit(path, t);
    SortedSplit(Before(path) + InOrder(t.left), (t.key, t.at), InOrder(t.right) + After(path));
    BoundsOfParts(Before(path), InOrder(t.left), t.key);
    BoundsOfParts(After(path), InOrder(t.right), t.key);
  }

  lemma {:induction false} SubtreeSorted<P>(path: Path<P>, t: Tree<P>)
    requires Sorted(InOrder(Zip(path, t)))
    ensures Sorted(InOrder(t))
  {
    hide Zip, Before, After, InOrder;
    ZipInOrder(path, t);
    var b, s, a := Before(path), InOrder(t), After(path);
    forall i | 0 <= i < |s| ensures (b + s + a)[|b| + i] == s[i] {}
  }

  /** The element after position |before| in `before + [e] + after`. */
  lemma Neighbours<T>(b: seq<T>, e: T, a: seq<T>)
    ensures var s := b + [e] + a;
      && s[|b|] == e
      && (a != [] ==> s[|b| + 1] == a[0]) && (a == [] ==> |b| + 1 == |s|)
      && (b != [] ==> s[|b| - 1] == b[|b| - 1])
  {
  }

  lemma EmptyOrder<P>(t: Tree<P>)
    ensures InOrder(t) == [] <==> t.Nil?
  {
  }

  lemma {:induction false} MinFirst<P>(t: Tree<P>)
    requires t.Node?
    ensures InOrder(t) != [] && InOrder(t)[0] == (Min(t).key, Min(t).at)
  {
    if t.left.Node? {
      MinFirst(t.left);
    }
  }

  /** The rightmost subtree. */
  function Max<P>(t: Tree<P>): (m: Tree<P>)
    requires t.Node?
    ensures m.Node? && m.right.Nil?
  {
    if t.right.Nil? then t else Max(t.right)
  }

  lemma {:induction false} MaxLast<P>(t: Tree<P>)
    requires t.Node?
    ensures InOrder(t) != [] && InOrder(t)[|InOrder(t)| - 1] == (Max(t).key, Max(t).at)
  {
    if t.right.Node? {
      MaxLast(t.right);
    }
  }

  /** An address stands at one position only. */
  lemma {:induction false} OnePosition(t: Tree<Addr>)
    requires Distinct(t)
    ensures forall e :: e in InOrder(t) ==> e.1 in Cells(t)
    ensures forall a :: a in Cells(t) ==> exists e :: e in InOrder(t) && e.1 == a
    ensures forall i, j :: 0 <= i < j < |InOrder(t)| ==> InOrder(t)[i].1 != InOrder(t)[j].1
  {
    if t.Node? {
      OnePosition(t.left);
      OnePosition(t.right);
      var l, r := InOrder(t.left), InOrder(t.right);
      forall a | a in Cells(t) ensures exists e :: e in InOrder(t) && e.1 == a {
        if a == t.at {
          assert (t.key, t.at) in InOrder(t);
        } else if a in Cells(t.left) {
          var e :| e in l && e.1 == a;
          assert e in InOrder(t);
        } else {
          var e :| e in r && e.1 == a;
          assert e in InOrder(t);
        }
      }
      forall i, j | 0 <= i < j < |InOrder(t)| ensures InOrder(t)[i].1 != InOrder(t)[j].1 {
        if i < |l| { assert l[i] in l; }
        if j < |l| { assert l[j] in l; }
        if i > |l| { assert InOrder(t)[i] == r[i - |l| - 1] && r[i - |l| - 1] in r; }
        if j > |l| { assert InOrder(t)[j] == r[j - |l| - 1] && r[j - |l| - 1] in r; }
      }
    }
  }

  // ---------- For RB_INSERT and RB_REMOVE ----------

  /** Writing an element that is not linked in changes nothing in the tree. */
  lemma UnlinkedElement(m: Memory, m': Memory, t: Tree<Addr>, root: Addr, elm: Addr)
    requires InPlace(m, Top, t, root) && elm !in Cells(t) && Frame(m, m', {elm})
    ensures InPlace(m', Top, t, root)
  {
    LinkedFrame(m, m', {elm}, t, 0);
  }

  lemma TreeNil(m: Memory, path: Path<Addr>, t: Tree<Addr>, root: Addr)
    requires InPlace(m, path, t, root) && Ptr(t) == 0
    ensures t.Nil?
  {
  }

  lemma PathPtrNonNull(m: Memory, path: Path<Addr>, t: Tree<Addr>, root: Addr)
    requires InPlace(m, path, t, root)
    ensures path.Step? <==> PathPtr(path) != 0
    ensures path.Step? ==> path.at in m
  {
    LinkedPathNonNull(m, path, Ptr(t), root);
  }

  lemma PathPtrInCells(m: Memory, path: Path<Addr>, t: Tree<Addr>, root: Addr)
    requires InPlace(m, path, t, root) && path.Step?
    ensures path.at in PathCells(path)
  {
  }

  /** A path from the root is no longer than 2 lg (n + 1). */
  lemma SearchBound<P>(t: Tree<P>)
    requires Balanced(t)
    ensures Pow2(Height(t)) <= (|InOrder(t)| + 1) * (|InOrder(t)| + 1)
  {
    HeightWithinRank(t);
    RankWithinSize(t);
    Pow2Monotone(Height(t), Rank(t));
  }

  /** A search of this many steps is no longer than the tree is high, nor than 2 lg (n + 1). */
  ghost predicate Few<P>(t: Tree<P>, steps: nat) {
    steps <= Height(t) && Pow2(steps) <= (|InOrder(t)| + 1) * (|InOrder(t)| + 1)
  }

  lemma FewSteps<P>(t: Tree<P>, steps: nat)
    requires Balanced(t) && steps <= Height(t)
    ensures Few(t, steps)
  {
    hide Balanced, Height, Pow2, InOrder;
    SearchBound(t);
    Pow2Monotone(steps, Height(t));
  }

  lemma ChildHeight<P>(t: Tree<P>, dir: Dir)
    requires t.Node?
    ensures Height(t.Child(dir)) + 1 <= Height(t)
  {
  }

  lemma AbsentKey<P>(path: Path<P>, key: nat)
    requires AllBelow(Before(path), key) && AllAbove(After(path), key)
    ensures forall e :: e in InOrder(Zip(path, Nil)) ==> e.0 != key
  {
    ZipInOrder(path, Nil);
  }

  /** A new leaf hung into an empty hole. */
  lemma LeafInPlace(m: Memory, m': Memory, path: Path<Addr>, root: Addr, root': Addr, elm: Addr, key: nat)
    requires InPlace(m, path, Nil, root) && elm != 0 && elm !in PathCells(path)
    requires elm in m' && m'[elm] == Links(PathPtr(path), 0, 0, false, false, key)
    requires Frame(m, m', {elm, PathPtr(path)})
    requires if path.Top? then root' == elm else root' == root && path.at in m && path.at in m' && m'[path.at] == m[path.at].SetLink(path.dir, elm)
    ensures InPlace(m', path, Node(Nil, false, key, elm, false, Nil), root')
  {
    LinkedPathMoved(m, m', {elm, PathPtr(path)}, path, 0, root, elm, root');
  }

  /** What RB_REMOVE of the node `t` does to the list. */
  lemma RemovedOrder(path: Path<Addr>, t: Tree<Addr>)
    requires t.Node? && Balanced(t) && PathBalanced(path, Rank(t)) && Sorted(InOrder(Zip(path, t)))
    ensures Balanced(RemoveAt(path, t))
    ensures InOrder(RemoveAt(path, t)) == Without(InOrder(Zip(path, t)), t.key)
    ensures Sorted(InOrder(RemoveAt(path, t))) && (t.key, t.at) in InOrder(Zip(path, t))
  {
    SubtreeSorted(path, t);
    NodeBounds(path, t);
    RemoveFoundOrder(path, t);
    RemoveAtSound(path, t);
    WithoutSorted(InOrder(Zip(path, t)), t.key);
    NodeSplit(path, t);
  }

  // ---------- The search loops ----------

  /** A search for `key` has come down to the subtree `t`: everything to the left of it is smaller, everything
      to the right is larger. */
  ghost predicate Searching(m: Memory, root: Addr, tree: Tree<Addr>, path: Path<Addr>, t: Tree<Addr>, key: nat) {
    && InPlace(m, path, t, root) && Zip(path, t) == tree
    && Balanced(t) && PathBalanced(path, Rank(t)) && Sorted(InOrder(t))
    && AllBelow(Before(path), key) && AllAbove(After(path), key)
  }

  lemma SearchStart(m: Memory, root: Addr, tree: Tree<Addr>, key: nat)
    requires InPlace(m, Top, tree, root) && Balanced(tree) && Sorted(InOrder(tree))
    ensures Searching(m, root, tree, Top, tree, key) && root == Ptr(tree)
  {
  }

  /** One round of a search loop. */
  lemma SearchStep(m: Memory, root: Addr, tree: Tree<Addr>, path: Path<Addr>, t: Tree<Addr>, key: nat)
    requires Searching(m, root, tree, path, t, key) && t.Node?
    ensures t.at != 0 && t.at in m && m[t.at].key == t.key && m[t.at].left == Ptr(t.left) && m[t.at].right == Ptr(t.right)
    ensures key < t.key ==> Searching(m, root, tree, Down(path, t, Left), t.left, key)
    ensures key > t.key ==> Searching(m, root, tree, Down(path, t, Right), t.right, key)
  {
    hide InPlace, Balanced, PathBalanced, Rank, Sorted, InOrder, AllBelow, AllAbove, Before, After;
    SortedParts(t);
    NodeFields(m, path, t, root);
    if key != t.key {
      var dir := if key < t.key then Left else Right;
      DownBounds(path, t, key);
      DownInPlace(m, path, t, dir, root);
      ZipDown(path, t, dir);
      DownBalanced(path, t, dir);
    }
  }

  lemma NodeFields(m: Memory, path: Path<Addr>, t: Tree<Addr>, root: Addr)
    requires InPlace(m, path, t, root) && t.Node?
    ensures t.at != 0 && t.at in m && m[t.at].key == t.key && m[t.at].left == Ptr(t.left) && m[t.at].right == Ptr(t.right)
  {
  }

  lemma ZipDown<P>(path: Path<P>, t: Tree<P>, dir: Dir)
    requires t.Node?
    ensures Zip(Down(path, t, dir), t.Child(dir)) == Zip(path, t)
  {
  }

  lemma DownBalanced<P>(path: Path<P>, t: Tree<P>, dir: Dir)
    requires t.Node? && Balanced(t) && PathBalanced(path, Rank(t))
    ensures Balanced(t.Child(dir)) && PathBalanced(Down(path, t, dir), Rank(t.Child(dir)))
  {
  }

  /** The key was found. */
  lemma SearchFound(m: Memory, root: Addr, tree: Tree<Addr>, path: Path<Addr>, t: Tree<Addr>, key: nat)
    requires Searching(m, root, tree, path, t, key) && t.Node? && t.key == key && Sorted(InOrder(tree))
    ensures (key, t.at) in InOrder(tree)
    ensures var s, i := InOrder(tree), |Before(path)| + |InOrder(t.left)|;
      i < |s| && s[i] == (key, t.at) && (forall j :: 0 <= j < i ==> s[j].0 < key) && (forall j :: i <= j < |s| ==> s[j].0 >= key)
  {
    NodeSplit(path, t);
    Neighbours(Before(path) + InOrder(t.left), (t.key, t.at), InOrder(t.right) + After(path));
  }

  /** The search ran off the tree. */
  lemma SearchMissed(m: Memory, root: Addr, tree: Tree<Addr>, path: Path<Addr>, t: Tree<Addr>, key: nat)
    requires Searching(m, root, tree, path, t, key) && Ptr(t) == 0
    ensures t.Nil?
    ensures forall e :: e in InOrder(tree) ==> e.0 != key
    ensures var s, i := InOrder(tree), |Before(path)|;
      && s == Before(path) + After(path)
      && (forall j :: 0 <= j < i ==> s[j].0 < key) && (forall j :: i <= j < |s| ==> s[j].0 > key)
  {
    TreeNil(m, path, t, root);
    AbsentKey(path, key);
    ZipInOrder(path, t);
  }

  /** How the climbing loops see from which side they come. */
  lemma HoleLink(m: Memory, path: Path<Addr>, t: Tree<Addr>, root: Addr, dir: Dir)
    requires InPlace(m, path, t, root) && t.Node?
    ensures path.Step? ==> path.at in m && (m[path.at].Link(dir) == t.at <==> path.dir == dir)
  {
    if path.Step? {
      LinkedNonNull(m, path.sib, path.at);
      LinkedNonNull(m, t, path.at);
    }
  }

  /** The key field of a listed element. */
  lemma {:induction false} ElementKey(m: Memory, path: Path<Addr>, t: Tree<Addr>, root: Addr, i: nat)
    requires InPlace(m, path, t, root) && i < |InOrder(t)|
    ensures InOrder(t)[i].1 in m && m[InOrder(t)[i].1].key == InOrder(t)[i].0
    decreases t
  {
    var n := |InOrder(t.left)|;
    if i < n {
      DownInPlace(m, path, t, Left, root);
      ElementKey(m, Down(path, t, Left), t.left, root, i);
    } else if i > n {
      DownInPlace(m, path, t, Right, root);
      ElementKey(m, Down(path, t, Right), t.right, root, i - n - 1);
    }
  }
}
