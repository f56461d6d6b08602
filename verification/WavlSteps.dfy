/** Single rounds of the rebalancing loops, on values and on memory. */
module WavlSteps {
  import opened WavlTree
  import opened WavlMemory

  /** The fields of the element just above a hole, and how the code finds out on which side the hole is. */
  lemma StepFields(m: Memory, path: Path<Addr>, t: Tree<Addr>, root: Addr)
    requires InPlace(m, path, t, root) && path.Step?
    ensures path.at != 0 && path.at in m
    ensures m[path.at] == Fields(PathPtr(path.rest), path.dir, Ptr(t), path.longElm, path.key, path.longSib, Ptr(path.sib))
    ensures t.Node? || path.sib.Node? ==> (m[path.at].right == Ptr(t) <==> path.dir == Right)
    ensures path.rest.Step? ==> path.rest.at != 0
  {
    LinkedNonNull(m, t, path.at);
    LinkedNonNull(m, path.sib, path.at);
    LinkedPathNonNull(m, path.rest, path.at, root);
  }

  lemma InsertDoubleShape(m: Memory, m1: Memory, m2: Memory, dir: Dir, t: Tree<Addr>, parent: Addr, b: Tree<Addr>)
    requires t.Node? && t.Child(dir.Other()).Node? && t.Long(dir)
    requires var c := t.Child(dir.Other());
      && c.at in m && t.at in m && parent in m && Rotated(m, m1, t.at, c.at, dir) && Recolored(m1, m2, {parent, t.at, c.at})
      && parent !in {t.at, c.at} && t.at != c.at && m[c.at].Link(dir) !in {parent, t.at, c.at}
      && m[t.at].key == t.key && m[t.at].Long(dir) == t.Long(dir) && m[t.at].Long(dir.Other()) == t.Long(dir.Other())
      && m[c.at].key == c.key && m[c.at].Long(dir) == c.Long(dir) && m[c.at].Long(dir.Other()) == c.Long(dir.Other())
      && !m[parent].longLeft && !m[parent].longRight
      && m2[parent].Long(dir) == (m1[parent].Long(dir) != m1[c.at].Long(dir.Other()))
      && m2[parent].Long(dir.Other()) == m1[parent].Long(dir.Other())
      && m2[t.at].Long(dir) == !m1[t.at].Long(dir)
      && m2[t.at].Long(dir.Other()) == (m1[t.at].Long(dir.Other()) != m1[c.at].Long(dir))
      && !m2[c.at].longLeft && !m2[c.at].longRight
    ensures var c := t.Child(dir.Other());
      InsertRotate(dir, t, m[parent].key, parent, b)
        == Hoisted(parent, m2[parent], c.at, m2[c.at], dir.Other(),
                   Join(dir, t.Child(dir), m2[t.at].Long(dir), m2[t.at].key, t.at, m2[t.at].Long(dir.Other()), c.Child(dir)),
                   c.Child(dir.Other()), b)
  {
  }

  lemma DoubleChecks(m: Memory, root: Addr, parent: Addr, e: Addr, dir: Dir,
                     w: Tree<Addr>, c: Tree<Addr>, b: Tree<Addr>, rest: Path<Addr>)
    requires HoistReady(m, root, parent, e, dir.Other(), w, c, b, rest) && c.Node?
    ensures c.at in m && c.at !in {parent, e} && m[c.at].Link(dir) !in {parent, e, c.at}
    ensures m[c.at].Link(dir) != 0 ==> m[c.at].Link(dir) in m
    ensures m[c.at].key == c.key && m[c.at].Long(dir) == c.Long(dir) && m[c.at].Long(dir.Other()) == c.Long(dir.Other())
  {
    OpenLinked(m, c, e, dir);
    LinkedNonNull(m, c.Child(dir), c.at);
  }

  lemma HoistChecks(m: Memory, root: Addr, parent: Addr, child: Addr, dir: Dir,
                    a: Tree<Addr>, mid: Tree<Addr>, b: Tree<Addr>, rest: Path<Addr>)
    requires HoistReady(m, root, parent, child, dir, a, mid, b, rest)
    ensures m[child].Link(dir) !in {parent, child} && (Ptr(mid) != 0 ==> Ptr(mid) in m)
    ensures var gpar := PathPtr(rest);
      && gpar !in {parent, child} && (gpar == Ptr(mid) ==> gpar == 0)
      && (gpar != 0 ==> gpar in m && (m[gpar].left == parent <==> rest.dir == Left))
  {
  }

  // ---------- Removal ----------

  /** The same memory with the sibling taken for the hole. */
  ghost function Flipped(path: Path<Addr>, t: Tree<Addr>): Path<Addr>
    requires path.Step?
  {
    Step(path.dir.Other(), path.longSib, path.key, path.at, path.longElm, t, path.rest)
  }

  lemma FlipInPlace(m: Memory, path: Path<Addr>, t: Tree<Addr>, root: Addr)
    requires InPlace(m, path, t, root) && path.Step?
    ensures InPlace(m, Flipped(path, t), path.sib, root)
    ensures Zip(Flipped(path, t), path.sib) == Zip(path, t)
  {
  }

  /** A subtree in a hole gets other bits at its root. */
  lemma RecolorTree(m: Memory, m': Memory, path: Path<Addr>, t: Tree<Addr>, root: Addr, longLeft: bool, longRight: bool)
    requires InPlace(m, path, t, root) && t.Node? && t.at in m
    requires m' == m[t.at := m[t.at].(longLeft := longLeft, longRight := longRight)]
    ensures InPlace(m', path, t.(longLeft := longLeft, longRight := longRight), root)
  {
    LinkedFrame(m, m', {t.at}, t.left, t.at);
    LinkedFrame(m, m', {t.at}, t.right, t.at);
    LinkedPathFrame(m, m', {t.at}, path, t.at, root);
  }

  lemma RemoveSingleShape(m: Memory, m': Memory, dir: Dir, t: Tree<Addr>, parent: Addr, sib: Tree<Addr>)
    requires sib.Node? && !(sib.longLeft && sib.longRight) && !sib.Long(dir.Other())
    requires parent in m && sib.at in m && parent != sib.at && Recolored(m, m', {parent, sib.at})
    requires m[sib.at].key == sib.key && m'[sib.at].Long(dir) == sib.Long(dir) && m'[sib.at].Long(dir.Other())
    requires m'[parent].Long(dir) == !sib.Long(dir) && !m'[parent].Long(dir.Other())
    ensures RemoveRotate(dir, t, m[parent].key, parent, sib)
         == Hoisted(parent, m'[parent], sib.at, m'[sib.at], dir, sib.Child(dir.Other()), sib.Child(dir), t)
  {
  }

  lemma RemoveDoubleShape(m: Memory, m1: Memory, m2: Memory, dir: Dir, t: Tree<Addr>, parent: Addr, sib: Tree<Addr>)
    requires sib.Node? && sib.Child(dir).Node? && sib.Long(dir.Other()) && !sib.Long(dir)
    requires var c, other := sib.Child(dir), dir.Other();
      && c.at in m && sib.at in m && parent in m && Rotated(m, m1, sib.at, c.at, other) && Recolored(m1, m2, {parent, sib.at, c.at})
      && parent !in {sib.at, c.at} && sib.at != c.at && m[c.at].Link(other) !in {parent, sib.at, c.at}
      && m[sib.at].key == sib.key && m[sib.at].Long(dir) == sib.Long(dir) && m[sib.at].Long(other) == sib.Long(other)
      && m[c.at].key == c.key && m[c.at].Long(dir) == c.Long(dir) && m[c.at].Long(other) == c.Long(other)
      && m[parent].Long(dir) && !m[parent].Long(other)
      && m2[parent].Long(dir) == !m1[parent].Long(dir)
      && m2[parent].Long(other) == (m1[parent].Long(other) != m1[c.at].Long(dir))
      && m2[sib.at].Long(dir) == (m1[sib.at].Long(dir) != m1[c.at].Long(other))
      && m2[sib.at].Long(other) == !m1[sib.at].Long(other)
      && m2[c.at].longLeft && m2[c.at].longRight
    ensures var c, other := sib.Child(dir), dir.Other();
      RemoveRotate(dir, t, m[parent].key, parent, sib)
        == Hoisted(parent, m2[parent], c.at, m2[c.at], dir,
                   Join(other, sib.Child(other), m2[sib.at].Long(other), m2[sib.at].key, sib.at, m2[sib.at].Long(dir), c.Child(other)),
                   c.Child(dir), t)
  {
  }

  lemma ChildrenPresent(m: Memory, path: Path<Addr>, t: Tree<Addr>, root: Addr)
    requires InPlace(m, path, t, root) && path.Step?
    ensures path.at in m
    ensures m[path.at].left == m[path.at].right <==> t.Nil? && path.sib.Nil?
  {
    LinkedNonNull(m, t, path.at);
    LinkedNonNull(m, path.sib, path.at);
  }

  /** The case before the loop of RB_REMOVE_COLOR. */
  lemma LeafFix(path: Path<Addr>, t: Tree<Addr>)
    requires Shrunk(path, t) && path.Step? && t.Nil? && path.sib.Nil?
    ensures var leaf := Join(path.dir, Nil, false, path.key, path.at, false, Nil);
      Shrunk(path.rest, leaf) && RemoveFix(path, t) == WavlTree.RemoveColor(path.rest, leaf)
  {
  }

  lemma SiblingFields(m: Memory, path: Path<Addr>, t: Tree<Addr>, root: Addr)
    requires InPlace(m, path, t, root) && path.Step? && path.sib.Node?
    ensures path.sib.at in m && m[path.sib.at].longLeft == path.sib.longLeft && m[path.sib.at].longRight == path.sib.longRight
  {
  }

  lemma RecolorSibling(m: Memory, m': Memory, path: Path<Addr>, t: Tree<Addr>, root: Addr)
    requires InPlace(m, path, t, root) && path.Step? && path.sib.Node? && path.sib.at in m
    requires m' == m[path.sib.at := m[path.sib.at].(longLeft := false, longRight := false)]
    ensures InPlace(m', path.(sib := Demoted(path.sib)), t, root)
  {
    FlipInPlace(m, path, t, root);
    RecolorTree(m, m', Flipped(path, t), path.sib, root, false, false);
    FlipInPlace(m', Flipped(path, t), Demoted(path.sib), root);
  }
}
