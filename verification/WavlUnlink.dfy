/** Taking an element out of the links, before rebalancing: the first half of RB_REMOVE. */
module WavlUnlink {
  import opened WavlTree
  import opened WavlOps
  import opened WavlMemory

  // ---------- An element with at most one child ----------

  lemma SpliceInPlace(m: Memory, m': Memory, root: Addr, root': Addr, path: Path<Addr>, out: Tree<Addr>)
    requires InPlace(m, path, out, root) && out.Node? && Balanced(out) && (out.left.Nil? || out.right.Nil?)
    requires var child := if out.right.Nil? then out.left else out.right;
      && Frame(m, m', {PathPtr(path), Ptr(child)})
      && (if path.Top? then root' == Ptr(child)
          else root' == root && path.at in m && path.at in m' && m'[path.at] == m[path.at].SetLink(path.dir, Ptr(child)))
      && (child.Node? ==> child.at in m && child.at in m' && m'[child.at] == m[child.at].(up := PathPtr(path), longLeft := false, longRight := false))
    ensures InPlace(m', path, if out.right.Nil? then out.left else out.right, root')
  {
    var child := if out.right.Nil? then out.left else out.right;
    OnlyChild(out);
    LinkedNonNull(m, child, out.at);
    LinkedPathNonNull(m, path, out.at, root);
    var touched := {PathPtr(path), Ptr(child)};
    assert child.Node? ==> m[child.at].longLeft == child.longLeft && m[child.at].longRight == child.longRight;
    LinkedMoved(m, m', touched, child, out.at, PathPtr(path));
    LinkedPathMoved(m, m', touched, path, out.at, root, Ptr(child), root');
  }

  // ---------- An element with two children ----------

  /** The parent of the leftmost element, when that is not the root. */
  function MinParent(t: Tree<Addr>): Addr
    requires t.Node? && t.left.Node?
  {
    if t.left.left.Nil? then t.at else MinParent(t.left)
  }

  lemma {:induction false} MinCells(t: Tree<Addr>)
    requires t.Node? && Distinct(t)
    ensures Min(t).at in Cells(t) && {Min(t).at} + Cells(Min(t).right) <= Cells(t)
    ensures Distinct(Min(t)) && Min(t).at !in Cells(Min(t).right)
    ensures t.left.Node? ==> MinParent(t) in Cells(t) && MinParent(t) != Min(t).at && MinParent(t) !in Cells(Min(t).right) && t.at != Min(t).at
    ensures t.left.Node? ==> t.at !in Cells(Min(t).right) && MinParent(t) !in Cells(t.right)
    ensures t.left.Node? && t.left.left.Node? ==> MinParent(t) == MinParent(t.left) && MinParent(t) != t.at
    decreases t
  {
    if t.left.Node? {
      MinCells(t.left);
    }
  }

  lemma {:induction false} MinLinked(m: Memory, t: Tree<Addr>, up: Addr)
    requires t.Node? && Linked(m, t, up)
    ensures Linked(m, Min(t), if t.left.Nil? then up else MinParent(t))
    decreases t
  {
    if t.left.Node? {
      MinLinked(m, t.left, t.at);
    }
  }

  /** The left spine of `t` above its leftmost element, moved below another path. */
  lemma {:induction false} SpineLinked(m: Memory, m': Memory, touched: set<Addr>, base: Path<Addr>, t: Tree<Addr>, up: Addr, root: Addr)
    requires t.Node? && t.left.Node? && Linked(m, t, up) && Distinct(t) && Frame(m, m', touched)
    requires LinkedPath(m', base, t.at, root)
    requires forall a :: a in Cells(t) && a in touched ==> a == t.at || a == MinParent(t) || a == Min(t).at || a in Cells(Min(t).right)
    requires MinParent(t) in m' && t.at in m' && t.at in m && MinParent(t) in m
    requires MinParent(t) != t.at ==>
      m'[t.at] == m[t.at].(up := PathPtr(base)) && m'[MinParent(t)] == m[MinParent(t)].(left := Ptr(Min(t).right))
    requires MinParent(t) == t.at ==> m'[t.at] == m[t.at].(up := PathPtr(base), left := Ptr(Min(t).right))
    ensures LinkedPath(m', MinPath(base, t), Ptr(Min(t).right), root)
    decreases t
  {
    MinCells(t);
    MinCells(t.left);
    LinkedFrame(m, m', touched, t.right, t.at);
    var base' := Down(base, t, Left);
    if t.left.left.Nil? {
      assert MinPath(base, t) == base';
    } else {
      assert LinkedPath(m', base', t.left.at, root);
      SpineChild(m, m', touched, t);
      SpineLinked(m, m', touched, base', t.left, t.at, root);
    }
  }

  lemma SpineChild(m: Memory, m': Memory, touched: set<Addr>, t: Tree<Addr>)
    requires t.Node? && t.left.Node? && t.left.left.Node? && Linked(m, t.left, t.at) && Distinct(t) && Frame(m, m', touched)
    requires forall a :: a in Cells(t) && a in touched ==> a == t.at || a == MinParent(t) || a == Min(t).at || a in Cells(Min(t).right)
    requires MinParent(t) in m' && MinParent(t) in m && m'[MinParent(t)] == m[MinParent(t)].(left := Ptr(Min(t).right))
    ensures var l := t.left;
      && l.at in m && l.at in m' && MinParent(l) == MinParent(t) && Min(l) == Min(t)
      && (MinParent(l) != l.at ==> m'[l.at] == m[l.at].(up := t.at))
      && (MinParent(l) == l.at ==> m'[l.at] == m[l.at].(up := t.at, left := Ptr(Min(l).right)))
  {
    MinCells(t);
    MinCells(t.left);
  }

  lemma {:induction false} SpineDistinct(base: Path<Addr>, t: Tree<Addr>)
    requires t.Node? && Distinct(t) && DistinctPath(base)
    requires forall a :: a in Cells(t) && a in PathCells(base) ==> a == Min(t).at
    ensures DistinctPath(MinPath(base, t)) && Cells(Min(t).right) !! PathCells(MinPath(base, t)) && Distinct(Min(t).right)
    decreases t
  {
    MinCells(t);
    if t.left.Node? {
      MinCells(t.left);
      SpineDistinct(Down(base, t, Left), t.left);
    }
  }

  /** The path to the hole the successor leaves, with the successor standing where `out` stood. */
  ghost function SuccessorBase(path: Path<Addr>, out: Tree<Addr>): Path<Addr>
    requires out.Node? && out.right.Node?
  {
    var succ := Min(out.right);
    Step(Right, out.longRight, succ.key, succ.at, out.longLeft, out.left, path)
  }

  /** The element that loses its child: the old parent of the successor, or the successor itself. */
  ghost function HoleParent(out: Tree<Addr>): Addr
    requires out.Node? && out.right.Node?
  {
    if out.right.left.Nil? then out.right.at else MinParent(out.right)
  }

  /** What the two-child branch of RB_REMOVE and RB_SWAP_CHILD leave in memory. */
  ghost predicate Replaced(m: Memory, m': Memory, root: Addr, root': Addr, path: Path<Addr>, out: Tree<Addr>)
    requires out.Node? && out.left.Node? && out.right.Node?
  {
    var l, r, succ, hole := out.left, out.right, Min(out.right), HoleParent(out);
    var child := Ptr(succ.right);
    && m'.Keys == m.Keys && {out.at, l.at, r.at, succ.at, hole} <= m.Keys
    && Frame(m, m', {l.at, r.at, succ.at, hole, PathPtr(path), child})
    && m'[l.at] == m[l.at].(up := succ.at)
    && m'[succ.at] == Links(PathPtr(path), l.at, if succ == r then child else r.at, out.longLeft, out.longRight, m[succ.at].key)
    && (succ != r && hole != r.at ==> m'[r.at] == m[r.at].(up := succ.at) && m'[hole] == m[hole].(left := child))
    && (succ != r && hole == r.at ==> m'[r.at] == m[r.at].(up := succ.at, left := child))
    && (if path.Top? then root' == succ.at
        else root' == root && path.at in m && m'[path.at] == m[path.at].SetLink(path.dir, succ.at))
    && (child != 0 ==> child in m && m'[child] == m[child].(up := hole, longLeft := false, longRight := false))
  }

  /** The elements the branch touches are where they should be. */
  lemma ReplaceApart(m: Memory, root: Addr, path: Path<Addr>, out: Tree<Addr>)
    requires InPlace(m, path, out, root) && out.Node? && out.left.Node? && out.right.Node?
    ensures var l, r, succ, hole, g := out.left, out.right, Min(out.right), HoleParent(out), PathPtr(path);
      && {out.at, l.at, r.at, succ.at, hole} <= m.Keys && 0 !in {out.at, l.at, r.at, succ.at, hole}
      && l.at in Cells(l) && r.at in Cells(r) && succ.at in Cells(r) && hole in Cells(r) && Cells(succ.right) <= Cells(r)
      && 0 !in Cells(l) && 0 !in Cells(r) && 0 !in PathCells(path) && 0 !in Cells(succ.right)
      && (g != 0 ==> g in PathCells(path) && g in m) && (Ptr(succ.right) != 0 ==> Ptr(succ.right) in Cells(succ.right))
      && Cells(l) !! Cells(r) && Cells(l) !! PathCells(path) && Cells(r) !! PathCells(path)
      && (succ != r ==> hole != succ.at && hole !in Cells(succ.right) && r.at != succ.at && r.at !in Cells(succ.right))
      && succ.at !in Cells(succ.right) && Cells(succ.right) <= m.Keys
      && (succ == r <==> r.left.Nil?)
      && out.at !in Cells(l) && out.at !in Cells(r) && out.at !in PathCells(path)
  {
    MinCells(out.right);
    LinkedNonNull(m, out.left, out.at);
    LinkedNonNull(m, out.right, out.at);
    LinkedPathNonNull(m, path, out.at, root);
    MinLinked(m, out.right, out.at);
    LinkedNonNull(m, Min(out.right).right, Min(out.right).at);
  }

  lemma ReplaceAround(m: Memory, m': Memory, root: Addr, root': Addr, path: Path<Addr>, out: Tree<Addr>)
    requires InPlace(m, path, out, root) && out.Node? && out.left.Node? && out.right.Node?
    requires Replaced(m, m', root, root', path, out)
    ensures LinkedPath(m', path, Min(out.right).at, root') && Linked(m', out.left, Min(out.right).at)
  {
    var l, r, succ, hole := out.left, out.right, Min(out.right), HoleParent(out);
    ReplaceApart(m, root, path, out);
    assert Linked(m, l, out.at) && Distinct(l) && LinkedPath(m, path, out.at, root) && DistinctPath(path);
    var touched := {l.at, r.at, succ.at, hole, PathPtr(path), Ptr(succ.right)};
    hide Linked, LinkedPath, Cells, PathCells, Distinct, DistinctPath;
    LinkedMoved(m, m', touched, l, out.at, succ.at);
    LinkedPathMoved(m, m', touched, path, out.at, root, succ.at, root');
  }

  lemma ReplaceChild(m: Memory, m': Memory, root: Addr, root': Addr, path: Path<Addr>, out: Tree<Addr>)
    requires InPlace(m, path, out, root) && out.Node? && Balanced(out) && out.left.Node? && out.right.Node?
    requires Replaced(m, m', root, root', path, out)
    ensures Linked(m', Min(out.right).right, HoleParent(out))
    ensures m[Min(out.right).at].key == Min(out.right).key
  {
    var r, succ, hole := out.right, Min(out.right), HoleParent(out);
    ReplaceApart(m, root, path, out);
    MinLinked(m, r, out.at);
    MinPathBalanced(Down(Top, out, Right), r);
    OnlyChild(succ);
    MinCells(r);
    var touched := {out.left.at, r.at, succ.at, hole, PathPtr(path), Ptr(succ.right)};
    assert succ.right.Node? ==> m[succ.right.at].longLeft == succ.right.longLeft && m[succ.right.at].longRight == succ.right.longRight;
    assert Linked(m, succ.right, succ.at) && Distinct(succ.right);
    hide Linked, LinkedPath, Cells, PathCells, Distinct, DistinctPath, Balanced, PathBalanced, Rank;
    LinkedMoved(m, m', touched, succ.right, succ.at, hole);
  }

  lemma ReplaceSpine(m: Memory, m': Memory, root: Addr, root': Addr, path: Path<Addr>, out: Tree<Addr>)
    requires InPlace(m, path, out, root) && out.Node? && out.left.Node? && out.right.Node?
    requires Replaced(m, m', root, root', path, out)
    requires LinkedPath(m', path, Min(out.right).at, root') && Linked(m', out.left, Min(out.right).at)
    requires m[Min(out.right).at].key == Min(out.right).key
    ensures LinkedPath(m', MinPath(SuccessorBase(path, out), out.right), Ptr(Min(out.right).right), root')
  {
    var r, succ := out.right, Min(out.right);
    ReplaceApart(m, root, path, out);
    if r.left.Node? {
      var touched := {out.left.at, r.at, succ.at, HoleParent(out), PathPtr(path), Ptr(succ.right)};
      assert LinkedPath(m', SuccessorBase(path, out), r.at, root');
      SpineLinked(m, m', touched, SuccessorBase(path, out), r, out.at, root');
    }
  }

  lemma ReplaceInPlace(m: Memory, m': Memory, root: Addr, root': Addr, path: Path<Addr>, out: Tree<Addr>)
    requires InPlace(m, path, out, root) && out.Node? && Balanced(out) && out.left.Node? && out.right.Node?
    requires Replaced(m, m', root, root', path, out)
    ensures InPlace(m', MinPath(SuccessorBase(path, out), out.right), Min(out.right).right, root')
    ensures PathPtr(MinPath(SuccessorBase(path, out), out.right)) == HoleParent(out)
  {
    ReplaceAround(m, m', root, root', path, out);
    ReplaceChild(m, m', root, root', path, out);
    ReplaceSpine(m, m', root, root', path, out);
    ReplaceApart(m, root, path, out);
    SpineDistinct(SuccessorBase(path, out), out.right);
    MinPathPtr(SuccessorBase(path, out), out.right);
  }

  lemma {:induction false} MinPathPtr(base: Path<Addr>, t: Tree<Addr>)
    requires t.Node?
    ensures PathPtr(MinPath(base, t)) == if t.left.Nil? then PathPtr(base) else MinParent(t)
    decreases t
  {
    if t.left.Node? {
      MinPathPtr(Down(base, t, Left), t.left);
    }
  }

  /** The fields RB_REMOVE reads of an element and of the link that points at it. */
  lemma HoleFields(m: Memory, path: Path<Addr>, t: Tree<Addr>, root: Addr)
    requires InPlace(m, path, t, root) && t.Node?
    ensures t.at in m && m[t.at] == Links(PathPtr(path), Ptr(t.left), Ptr(t.right), t.longLeft, t.longRight, t.key)
    ensures t.left.Node? ==> t.left.at != 0 && t.left.at in m && t.left.at != PathPtr(path)
    ensures t.right.Node? ==> t.right.at != 0 && t.right.at in m && t.right.at != PathPtr(path)
    ensures var g := PathPtr(path);
      (path.Top? <==> g == 0) && (path.Step? ==> g in m && (m[g].left == t.at <==> path.dir == Left))
  {
    LinkedNonNull(m, t.left, t.at);
    LinkedNonNull(m, t.right, t.at);
    LinkedPathNonNull(m, path, t.at, root);
    if path.Step? {
      LinkedNonNull(m, path.sib, path.at);
    }
  }

  lemma ReplaceFields(m: Memory, root: Addr, path: Path<Addr>, out: Tree<Addr>)
    requires InPlace(m, path, out, root) && out.Node? && out.left.Node? && out.right.Node?
    ensures var l, r, succ, hole, g := out.left.at, out.right.at, Min(out.right), HoleParent(out), PathPtr(path);
      && out.at in m && m[out.at] == Links(g, l, r, out.longLeft, out.longRight, out.key)
      && {l, r, succ.at, hole} <= m.Keys && m[succ.at].right == Ptr(succ.right)
      && (if succ == out.right then succ.at == r && hole == r else succ.at != r && hole != succ.at && m[succ.at].up == hole)
      && l !in {r, succ.at, hole} && g !in {l, r, succ.at, hole, out.at} && out.at !in {l, r, succ.at, hole}
      && Ptr(succ.right) !in {l, succ.at, out.at, r, hole} && (Ptr(succ.right) != 0 ==> Ptr(succ.right) in m && Ptr(succ.right) != g)
      && (path.Top? <==> g == 0) && (path.Step? ==> g in m && (m[g].left == out.at <==> path.dir == Left))
  {
    HoleFields(m, path, out, root);
    MinLinked(m, out.right, out.at);
    MinCells(out.right);
    ReplaceApart(m, root, path, out);
  }

  lemma ReplacedBySteps(m: Memory, m1: Memory, m2: Memory, root: Addr, root': Addr, path: Path<Addr>, out: Tree<Addr>)
    requires InPlace(m, path, out, root) && out.Node? && out.left.Node? && out.right.Node?
    requires var l, r, succ, hole := out.left.at, out.right.at, Min(out.right).at, HoleParent(out);
      var child := Ptr(Min(out.right).right);
      && m1.Keys == m.Keys && Frame(m, m1, {l, r, succ, hole}) && {l, r, succ, hole} <= m.Keys
      && m1[l] == m[l].(up := succ)
      && m1[succ] == Links(PathPtr(path), l, if succ == r then child else r, out.longLeft, out.longRight, m[succ].key)
      && (succ != r && hole != r ==> m1[r] == m[r].(up := succ) && m1[hole] == m[hole].(left := child))
      && (succ != r && hole == r ==> m1[r] == m[r].(up := succ, left := child))
    requires var succ, g, child := Min(out.right).at, PathPtr(path), Ptr(Min(out.right).right);
      && m2.Keys == m1.Keys && Frame(m1, m2, {g, child})
      && (if g == 0 then root' == succ else root' == root && g in m1 && m2[g] == m1[g].SetLink(PathDir(path), succ))
      && (child != 0 ==> child in m1 && m2[child] == m1[child].(up := HoleParent(out), longLeft := false, longRight := false))
    ensures Replaced(m, m2, root, root', path, out)
  {
    ReplaceFields(m, root, path, out);
    hide Linked, LinkedPath, Cells, PathCells, Distinct, DistinctPath, InPlace, Min, MinParent, HoleParent;
  }
}
