/** The rank-balanced, or weak AVL, tree of kernel/lib/include/DataStructures/tree.h as a value. */
module WavlTree {

  // A node carries its key, the identity `at` of the element linked into the tree, and one bit for each
  // downward edge: a long edge has rank difference 2, a short one 1. The loops of tree.h climb from a
  // node to its parent, so they are written over a `Path`, the part of the tree above a hole, innermost
  // node first. Like tree.h, the code is written once for both directions.

  datatype Dir = Left | Right {
    function Other(): Dir { if this == Left then Right else Left }
  }

  datatype Tree<P> =
    | Nil
    | Node(left: Tree<P>, longLeft: bool, key: nat, at: P, longRight: bool, right: Tree<P>)
  {
    function Child(d: Dir): Tree<P>
      requires Node?
    {
      if d == Left then left else right
    }

    predicate Long(d: Dir)
      requires Node?
    {
      if d == Left then longLeft else longRight
    }
  }

  /** The tree above a hole: the hole is the `dir` child of node `at`, whose other child is `sib`. */
  datatype Path<P> =
    | Top
    | Step(dir: Dir, longElm: bool, key: nat, at: P, longSib: bool, sib: Tree<P>, rest: Path<P>)

  /** The node with child `elm` in direction `dir` and child `sib` in the other direction. */
  function Join<P>(dir: Dir, elm: Tree<P>, longElm: bool, key: nat, at: P, longSib: bool, sib: Tree<P>): (t: Tree<P>)
    ensures t.Node? && t.Child(dir) == elm && t.Child(dir.Other()) == sib
    ensures t.Long(dir) == longElm && t.Long(dir.Other()) == longSib && t.key == key && t.at == at
  {
    if dir == Left then Node(elm, longElm, key, at, longSib, sib) else Node(sib, longSib, key, at, longElm, elm)
  }

  /** Fills the hole of a path. */
  function Zip<P>(path: Path<P>, elm: Tree<P>): Tree<P>
    decreases path
  {
    match path
    case Top => elm
    case Step(dir, longElm, key, at, longSib, sib, rest) => Zip(rest, Join(dir, elm, longElm, key, at, longSib, sib))
  }

  /** The path of the `dir` child of a node that sits below `path`. */
  function Down<P>(path: Path<P>, t: Tree<P>, dir: Dir): Path<P>
    requires t.Node?
  {
    Step(dir, t.Long(dir), t.key, t.at, t.Long(dir.Other()), t.Child(dir.Other()), path)
  }

  // ---------- Rank and order ----------

  function Len(long: bool): nat { if long then 2 else 1 }

  /** The rank of a subtree, measured along its left spine; an empty tree has rank 0, as in RB_RANK. */
  function Rank<P>(t: Tree<P>): nat {
    if t.Nil? then 0 else Rank(t.left) + Len(t.longLeft)
  }

  /** The weak-AVL rules: both sides of every node measure the same rank and no leaf has rank 2. */
  predicate Balanced<P>(t: Tree<P>) {
    t.Node? ==>
      && Balanced(t.left) && Balanced(t.right)
      && Rank(t.left) + Len(t.longLeft) == Rank(t.right) + Len(t.longRight)
      && !(t.left.Nil? && t.right.Nil? && t.longLeft)
  }

  /** The tree above a hole obeys the rules if the hole is filled by a balanced tree of rank `r`. */
  predicate PathBalanced<P>(path: Path<P>, r: nat)
    decreases path
  {
    path.Step? ==>
      && Balanced(path.sib)
      && r + Len(path.longElm) == Rank(path.sib) + Len(path.longSib)
      && !(r == 0 && path.sib.Nil? && path.longElm)
      && PathBalanced(path.rest, r + Len(path.longElm))
  }

  /** The elements in key order: what the tree stands for. */
  function InOrder<P>(t: Tree<P>): seq<(nat, P)> {
    if t.Nil? then [] else InOrder(t.left) + [(t.key, t.at)] + InOrder(t.right)
  }

  function Before<P>(path: Path<P>): seq<(nat, P)>
    decreases path
  {
    if path.Top? then []
    else if path.dir == Left then Before(path.rest)
    else Before(path.rest) + (InOrder(path.sib) + [(path.key, path.at)])
  }

  function After<P>(path: Path<P>): seq<(nat, P)>
    decreases path
  {
    if path.Top? then []
    else if path.dir == Left then [(path.key, path.at)] + InOrder(path.sib) + After(path.rest)
    else After(path.rest)
  }

  lemma Reassociate<T>(a: seq<T>, b: seq<T>, c: seq<T>, d: seq<T>, e: seq<T>)
    ensures a + (b + c + d) + e == a + b + (c + d + e)
    ensures a + (b + c + d) + e == a + (b + c) + d + e
  {
  }

  lemma {:induction false} ZipInOrder<P>(path: Path<P>, elm: Tree<P>)
    ensures InOrder(Zip(path, elm)) == Before(path) + InOrder(elm) + After(path)
    decreases path
  {
    match path
    case Top =>
    case Step(dir, longElm, key, at, longSib, sib, rest) =>
      ZipInOrder(rest, Join(dir, elm, longElm, key, at, longSib, sib));
      if dir == Left {
        Reassociate(Before(rest), InOrder(elm), [(key, at)], InOrder(sib), After(rest));
      } else {
        Reassociate(Before(rest), InOrder(sib), [(key, at)], InOrder(elm), After(rest));
      }
  }

  lemma JoinBalanced<P>(dir: Dir, elm: Tree<P>, longElm: bool, key: nat, at: P, longSib: bool, sib: Tree<P>)
    requires Balanced(elm) && Balanced(sib) && Rank(elm) + Len(longElm) == Rank(sib) + Len(longSib)
    requires !(elm.Nil? && sib.Nil? && longElm)
    ensures var t := Join(dir, elm, longElm, key, at, longSib, sib);
      Balanced(t) && Rank(t) == Rank(elm) + Len(longElm)
  {
  }

  lemma {:induction false} ZipBalanced<P>(path: Path<P>, elm: Tree<P>)
    requires Balanced(elm) && PathBalanced(path, Rank(elm))
    ensures Balanced(Zip(path, elm))
    decreases path
  {
    match path
    case Top =>
    case Step(dir, longElm, key, at, longSib, sib, rest) =>
      ZipBalanced(rest, Join(dir, elm, longElm, key, at, longSib, sib));
  }

  // ---------- RB_INSERT_COLOR ----------

  /** The subtree `elm` filling the hole is one rank higher than the hole: it is a new leaf, or exactly one
      of its edges is long. */
  predicate Grown<P>(path: Path<P>, elm: Tree<P>) {
    && elm.Node? && Balanced(elm) && PathBalanced(path, Rank(elm) - 1)
    && ((elm.left.Nil? && elm.right.Nil?) || elm.longLeft != elm.longRight)
  }

  /** One or two rotations make the node `key` a child of the shorter side; every bit is an exclusive-or
      of the bits before, as the code computes it. */
  function InsertRotate<P>(dir: Dir, elm: Tree<P>, key: nat, at: P, sib: Tree<P>): Tree<P>
    requires elm.Node? && (elm.Long(dir) ==> elm.Child(dir.Other()).Node?)
  {
    var other := dir.Other();
    if elm.Long(dir) then
      var child := elm.Child(other);
      var elm' := Join(dir, elm.Child(dir), !elm.Long(dir), elm.key, elm.at,
                       if child.Long(dir) then !elm.Long(other) else elm.Long(other), child.Child(dir));
      var parent' := Join(dir, child.Child(other), child.Long(other), key, at, false, sib);
      Join(dir, elm', false, child.key, child.at, false, parent')
    else
      Join(dir, elm.Child(dir), false, elm.key, elm.at, false,
           Join(dir, elm.Child(other), false, key, at, false, sib))
  }

  function InsertColor<P>(path: Path<P>, elm: Tree<P>): Tree<P>
    requires Grown(path, elm)
    decreases path
  {
    match path
    case Top => elm
    case Step(dir, longElm, key, at, longSib, sib, rest) =>
      if longElm then
        Zip(rest, Join(dir, elm, false, key, at, longSib, sib))
      else if !longSib then
        InsertColor(rest, Join(dir, elm, false, key, at, true, sib))
      else
        Zip(rest, InsertRotate(dir, elm, key, at, sib))
  }

  lemma InsertRotateRank<P>(dir: Dir, elm: Tree<P>, key: nat, at: P, sib: Tree<P>)
    requires elm.Node? && Balanced(elm) && Balanced(sib) && Rank(elm) == Rank(sib) + 2
    requires elm.longLeft != elm.longRight
    ensures elm.Long(dir) ==> elm.Child(dir.Other()).Node?
    ensures Balanced(InsertRotate(dir, elm, key, at, sib))
    ensures Rank(InsertRotate(dir, elm, key, at, sib)) == Rank(elm)
  {
    assert elm.Long(dir) ==> elm.Child(dir.Other()).Node?;
  }

  lemma Regroup<T>(a: seq<T>, b: seq<T>, c: seq<T>, d: seq<T>, e: seq<T>, f: seq<T>, g: seq<T>)
    ensures (a + b + c) + d + (e + f + g) == (a + b + (c + d + e)) + f + g
    ensures (a + b + c) + d + (e + f + g) == a + b + ((c + d + e) + f + g)
    ensures a + b + (c + d + e) == (a + b + c) + d + e
  {
  }

  lemma InsertRotateOrder<P>(dir: Dir, elm: Tree<P>, key: nat, at: P, sib: Tree<P>)
    requires elm.Node? && (elm.Long(dir) ==> elm.Child(dir.Other()).Node?)
    ensures InOrder(InsertRotate(dir, elm, key, at, sib)) == InOrder(Join(dir, elm, false, key, at, true, sib))
  {
    var k, s, e := [(key, at)], InOrder(sib), [(elm.key, elm.at)];
    var l, r := InOrder(elm.left), InOrder(elm.right);
    if elm.Long(dir) {
      var child := elm.Child(dir.Other());
      var c, x, y := [(child.key, child.at)], InOrder(child.left), InOrder(child.right);
      if dir == Left {
        Regroup(l, e, x, c, y, k, s);
      } else {
        Regroup(s, k, x, c, y, e, r);
      }
    } else if dir == Left {
      Regroup(l, e, r, k, s, [], []);
    } else {
      Regroup(s, k, l, e, r, [], []);
    }
  }

  /** One round of RB_INSERT_COLOR, case by case. */
  lemma GrownStep<P>(path: Path<P>, t: Tree<P>)
    requires Grown(path, t) && path.Step?
    ensures t.Node?
    ensures path.longElm ==> InsertColor(path, t) == Zip(path.(longElm := false), t)
    ensures !path.longElm && !path.longSib ==>
      var t' := Join(path.dir, t, false, path.key, path.at, true, path.sib);
      Grown(path.rest, t') && InsertColor(path, t) == InsertColor(path.rest, t')
    ensures !path.longElm && path.longSib ==>
      && (t.left.Node? || t.right.Node?) && t.longLeft != t.longRight
      && (t.Long(path.dir) ==> t.Child(path.dir.Other()).Node?)
      && InsertColor(path, t) == Zip(path.rest, InsertRotate(path.dir, t, path.key, path.at, path.sib))
  {
  }

  lemma {:induction false} InsertColorBalanced<P>(path: Path<P>, elm: Tree<P>)
    requires Grown(path, elm)
    ensures Balanced(InsertColor(path, elm))
    decreases path
  {
    match path
    case Top =>
    case Step(dir, longElm, key, at, longSib, sib, rest) =>
      if longElm {
        JoinBalanced(dir, elm, false, key, at, longSib, sib);
        ZipBalanced(rest, Join(dir, elm, false, key, at, longSib, sib));
      } else if !longSib {
        JoinBalanced(dir, elm, false, key, at, true, sib);
        InsertColorBalanced(rest, Join(dir, elm, false, key, at, true, sib));
      } else {
        InsertRotateRank(dir, elm, key, at, sib);
        ZipBalanced(rest, InsertRotate(dir, elm, key, at, sib));
      }
  }

  /** The list does not depend on the bits of an edge. */
  lemma JoinOrder<P>(dir: Dir, elm: Tree<P>, a: bool, b: bool, key: nat, at: P, sib: Tree<P>, a': bool, b': bool)
    ensures InOrder(Join(dir, elm, a, key, at, b, sib)) == InOrder(Join(dir, elm, a', key, at, b', sib))
  {
  }

  /** The node above a hole, replaced by a tree with the same elements. */
  lemma OrderAbove<P>(path: Path<P>, elm: Tree<P>, t: Tree<P>)
    requires path.Step? && InOrder(t) == InOrder(Join(path.dir, elm, path.longElm, path.key, path.at, path.longSib, path.sib))
    ensures InOrder(Zip(path.rest, t)) == InOrder(Zip(path, elm))
  {
    hide InOrder, Join;
    ZipInOrder(path.rest, t);
    ZipInOrder(path.rest, Join(path.dir, elm, path.longElm, path.key, path.at, path.longSib, path.sib));
  }

  lemma {:induction false} InsertColorOrder<P>(path: Path<P>, elm: Tree<P>)
    requires Grown(path, elm)
    ensures InOrder(InsertColor(path, elm)) == InOrder(Zip(path, elm))
    decreases path
  {
    if path.Step? {
      GrownStep(path, elm);
      hide InOrder, Grown, InsertColor, InsertRotate, Join;
      JoinOrder(path.dir, elm, false, path.longSib, path.key, path.at, path.sib, path.longElm, path.longSib);
      JoinOrder(path.dir, elm, false, true, path.key, path.at, path.sib, path.longElm, path.longSib);
      if path.longElm {
        OrderAbove(path, elm, Join(path.dir, elm, false, path.key, path.at, path.longSib, path.sib));
      } else if !path.longSib {
        var t := Join(path.dir, elm, false, path.key, path.at, true, path.sib);
        InsertColorOrder(path.rest, t);
        OrderAbove(path, elm, t);
      } else {
        InsertRotateOrder(path.dir, elm, path.key, path.at, path.sib);
        OrderAbove(path, elm, InsertRotate(path.dir, elm, path.key, path.at, path.sib));
      }
    }
  }

  // ---------- RB_REMOVE_COLOR ----------

  /** The subtree `elm` filling the hole is one rank lower than the hole. */
  predicate Shrunk<P>(path: Path<P>, elm: Tree<P>) {
    Balanced(elm) && PathBalanced(path, Rank(elm) + 1)
  }

  /** `elm` hangs on a long edge and lost a rank; its sibling hangs on a short edge and does not have two
      long edges of its own.  The node `key` is rotated below the sibling, or below the sibling's near child. */
  function RemoveRotate<P>(dir: Dir, elm: Tree<P>, key: nat, at: P, sib: Tree<P>): Tree<P>
    requires sib.Node? && !(sib.longLeft && sib.longRight)
    requires sib.Long(dir.Other()) ==> sib.Child(dir).Node?
  {
    var other := dir.Other();
    if sib.Long(other) then
      var star := sib.Child(dir);
      var parent' := Join(dir, elm, false, key, at, star.Long(dir), star.Child(dir));
      var sib' := Join(dir, star.Child(other), if star.Long(other) then !sib.Long(dir) else sib.Long(dir),
                       sib.key, sib.at, !sib.Long(other), sib.Child(other));
      Join(dir, parent', true, star.key, star.at, true, sib')
    else
      var parent' := Join(dir, elm, !sib.Long(dir), key, at, false, sib.Child(dir));
      Join(dir, parent', sib.Long(dir), sib.key, sib.at, !sib.Long(other), sib.Child(other))
  }

  /** A node with two long edges loses a rank. */
  function Demoted<P>(t: Tree<P>): Tree<P>
    requires t.Node?
  {
    t.(longLeft := false, longRight := false)
  }

  lemma DemotedRank<P>(t: Tree<P>)
    requires Balanced(t) && t.Node? && t.longLeft && t.longRight
    ensures Balanced(Demoted(t)) && Rank(Demoted(t)) == Rank(t) - 1
  {
  }

  function RemoveColor<P>(path: Path<P>, elm: Tree<P>): Tree<P>
    requires Shrunk(path, elm) && (path.Step? && elm.Nil? ==> path.sib.Node?)
    decreases path
  {
    match path
    case Top => elm
    case Step(dir, longElm, key, at, longSib, sib, rest) =>
      if !longElm then
        Zip(rest, Join(dir, elm, true, key, at, longSib, sib))
      else if longSib then
        JoinBalanced(dir, elm, true, key, at, false, sib);
        RemoveColor(rest, Join(dir, elm, true, key, at, false, sib))
      else if sib.longLeft && sib.longRight then
        DemotedRank(sib);
        JoinBalanced(dir, elm, true, key, at, false, Demoted(sib));
        RemoveColor(rest, Join(dir, elm, true, key, at, false, Demoted(sib)))
      else
        Zip(rest, RemoveRotate(dir, elm, key, at, sib))
  }

  /** RB_REMOVE_COLOR with the case before its loop: a node left without children becomes a leaf of rank 1. */
  function RemoveFix<P>(path: Path<P>, elm: Tree<P>): Tree<P>
    requires Shrunk(path, elm)
  {
    if path.Step? && elm.Nil? && path.sib.Nil? then
      RemoveColor(path.rest, Join(path.dir, Nil, false, path.key, path.at, false, Nil))
    else
      RemoveColor(path, elm)
  }

  /** Both sides of a balanced node measure its rank. */
  lemma SideRanks<P>(t: Tree<P>, dir: Dir)
    requires Balanced(t) && t.Node?
    ensures var a, b := t.Child(dir), t.Child(dir.Other());
      && Balanced(a) && Balanced(b) && Rank(t) == Rank(a) + Len(t.Long(dir)) == Rank(b) + Len(t.Long(dir.Other()))
      && (Rank(a) > 0 ==> a.Node?) && (Rank(b) > 0 ==> b.Node?) && (t.longLeft && t.longRight ==> a.Node? && b.Node?)
  {
  }

  lemma NodeRank<P>(t: Tree<P>)
    ensures t.Node? <==> Rank(t) > 0
  {
  }

  lemma RemoveRotateRank<P>(dir: Dir, elm: Tree<P>, key: nat, at: P, sib: Tree<P>)
    requires Balanced(elm) && Balanced(sib) && Rank(sib) == Rank(elm) + 2
    requires !(sib.longLeft && sib.longRight)
    ensures sib.Long(dir.Other()) ==> sib.Child(dir).Node?
    ensures Balanced(RemoveRotate(dir, elm, key, at, sib))
    ensures Rank(RemoveRotate(dir, elm, key, at, sib)) == Rank(elm) + 3
  {
    hide Balanced, Rank, Join;
    NodeRank(sib);
    var other := dir.Other();
    SideRanks(sib, dir);
    var near, far := sib.Child(dir), sib.Child(other);
    if sib.Long(other) {
      SideRanks(near, dir);
      var high := if near.Long(other) then !sib.Long(dir) else sib.Long(dir);
      NodeRank(elm);
      NodeRank(far);
      NodeRank(near.Child(dir));
      NodeRank(near.Child(other));
      JoinBalanced(dir, elm, false, key, at, near.Long(dir), near.Child(dir));
      JoinBalanced(dir, near.Child(other), high, sib.key, sib.at, !sib.Long(other), far);
      JoinBalanced(dir, Join(dir, elm, false, key, at, near.Long(dir), near.Child(dir)), true, near.key, near.at, true,
                   Join(dir, near.Child(other), high, sib.key, sib.at, !sib.Long(other), far));
    } else {
      NodeRank(elm);
      NodeRank(near);
      JoinBalanced(dir, elm, !sib.Long(dir), key, at, false, near);
      JoinBalanced(dir, Join(dir, elm, !sib.Long(dir), key, at, false, near), sib.Long(dir), sib.key, sib.at, !sib.Long(other), far);
    }
  }

  lemma RemoveRotateOrder<P>(dir: Dir, elm: Tree<P>, key: nat, at: P, sib: Tree<P>)
    requires sib.Node? && !(sib.longLeft && sib.longRight)
    requires sib.Long(dir.Other()) ==> sib.Child(dir).Node?
    ensures InOrder(RemoveRotate(dir, elm, key, at, sib)) == InOrder(Join(dir, elm, true, key, at, false, sib))
  {
    var k, e, s := [(key, at)], InOrder(elm), [(sib.key, sib.at)];
    var l, r := InOrder(sib.left), InOrder(sib.right);
    if sib.Long(dir.Other()) {
      var star := sib.Child(dir);
      var c, x, y := [(star.key, star.at)], InOrder(star.left), InOrder(star.right);
      if dir == Left {
        Regroup(e, k, x, c, y, s, r);
      } else {
        Regroup(l, s, x, c, y, k, e);
      }
    } else if dir == Left {
      Regroup(e, k, l, s, r, [], []);
    } else {
      Regroup(l, s, r, k, e, [], []);
    }
  }

  /** One round of RB_REMOVE_COLOR, case by case. */
  lemma ShrunkStep<P>(path: Path<P>, t: Tree<P>)
    requires Shrunk(path, t) && path.Step? && (t.Nil? ==> path.sib.Node?)
    ensures !path.longElm ==> RemoveColor(path, t) == Zip(path.(longElm := true), t)
    ensures path.longElm && path.longSib ==>
      var t' := Join(path.dir, t, true, path.key, path.at, false, path.sib);
      Shrunk(path.rest, t') && RemoveColor(path, t) == RemoveColor(path.rest, t')
    ensures path.longElm && !path.longSib ==> path.sib.Node?
    ensures path.longElm && !path.longSib && path.sib.longLeft && path.sib.longRight ==>
      var t' := Join(path.dir, t, true, path.key, path.at, false, Demoted(path.sib));
      Shrunk(path.rest, t') && RemoveColor(path, t) == RemoveColor(path.rest, t')
    ensures path.longElm && !path.longSib && !(path.sib.longLeft && path.sib.longRight) ==>
      && (path.sib.Long(path.dir.Other()) ==> path.sib.Child(path.dir).Node?)
      && RemoveColor(path, t) == Zip(path.rest, RemoveRotate(path.dir, t, path.key, path.at, path.sib))
  {
    if path.longElm {
      if path.longSib {
        JoinBalanced(path.dir, t, true, path.key, path.at, false, path.sib);
      } else if path.sib.longLeft && path.sib.longRight {
        JoinBalanced(path.dir, t, true, path.key, path.at, false, Demoted(path.sib));
      }
    }
  }

  lemma {:induction false} RemoveColorBalanced<P>(path: Path<P>, elm: Tree<P>)
    requires Shrunk(path, elm) && (path.Step? && elm.Nil? ==> path.sib.Node?)
    ensures Balanced(RemoveColor(path, elm))
    decreases path
  {
    if path.Step? {
      ShrunkStep(path, elm);
      assert PathBalanced(path.rest, Rank(elm) + 1 + Len(path.longElm));
      hide RemoveColor, RemoveRotate, Zip, Join;
      var sib := path.sib;
      if !path.longElm {
        JoinBalanced(path.dir, elm, true, path.key, path.at, path.longSib, sib);
        ZipBalanced(path.rest, Join(path.dir, elm, true, path.key, path.at, path.longSib, sib));
        ZipStep(path.(longElm := true), elm);
      } else if path.longSib {
        RemoveColorBalanced(path.rest, Join(path.dir, elm, true, path.key, path.at, false, sib));
      } else if sib.longLeft && sib.longRight {
        RemoveColorBalanced(path.rest, Join(path.dir, elm, true, path.key, path.at, false, Demoted(sib)));
      } else {
        RemoveRotateRank(path.dir, elm, path.key, path.at, sib);
        ZipBalanced(path.rest, RemoveRotate(path.dir, elm, path.key, path.at, sib));
      }
    }
  }

  lemma ZipStep<P>(path: Path<P>, elm: Tree<P>)
    requires path.Step?
    ensures Zip(path, elm) == Zip(path.rest, Join(path.dir, elm, path.longElm, path.key, path.at, path.longSib, path.sib))
  {
  }

  lemma {:induction false} RemoveColorOrder<P>(path: Path<P>, elm: Tree<P>)
    requires Shrunk(path, elm) && (path.Step? && elm.Nil? ==> path.sib.Node?)
    ensures InOrder(RemoveColor(path, elm)) == InOrder(Zip(path, elm))
    decreases path
  {
    if path.Step? {
      ShrunkStep(path, elm);
      hide InOrder, Shrunk, RemoveColor, RemoveRotate, Join;
      var sib := path.sib;
      if !path.longElm {
        JoinOrder(path.dir, elm, true, path.longSib, path.key, path.at, sib, path.longElm, path.longSib);
        OrderAbove(path, elm, Join(path.dir, elm, true, path.key, path.at, path.longSib, sib));
      } else if path.longSib {
        var t := Join(path.dir, elm, true, path.key, path.at, false, sib);
        JoinOrder(path.dir, elm, true, false, path.key, path.at, sib, path.longElm, path.longSib);
        RemoveColorOrder(path.rest, t);
        OrderAbove(path, elm, t);
      } else if sib.longLeft && sib.longRight {
        var t := Join(path.dir, elm, true, path.key, path.at, false, Demoted(sib));
        DemotedOrder(path.dir, elm, path.key, path.at, sib, path.longElm, path.longSib);
        RemoveColorOrder(path.rest, t);
        OrderAbove(path, elm, t);
      } else {
        RemoveRotateOrder(path.dir, elm, path.key, path.at, sib);
        OrderAbove(path, elm, RemoveRotate(path.dir, elm, path.key, path.at, sib));
      }
    }
  }

  lemma DemotedOrder<P>(dir: Dir, elm: Tree<P>, key: nat, at: P, sib: Tree<P>, a: bool, b: bool)
    requires sib.Node?
    ensures InOrder(Join(dir, elm, true, key, at, false, Demoted(sib))) == InOrder(Join(dir, elm, a, key, at, b, sib))
  {
    assert InOrder(Demoted(sib)) == InOrder(sib);
    hide Demoted;
  }

  /** Both loops end at the top. */
  lemma ColorTop<P>(path: Path<P>, t: Tree<P>)
    requires path.Top?
    ensures Grown(path, t) ==> InsertColor(path, t) == t
    ensures Shrunk(path, t) ==> RemoveColor(path, t) == t
  {
  }

  lemma RemoveFixSound<P>(path: Path<P>, elm: Tree<P>)
    requires Shrunk(path, elm)
    ensures Balanced(RemoveFix(path, elm))
    ensures InOrder(RemoveFix(path, elm)) == InOrder(Zip(path, elm))
  {
    if path.Step? && elm.Nil? && path.sib.Nil? {
      var leaf := Join(path.dir, Nil, false, path.key, path.at, false, Nil);
      RemoveColorBalanced(path.rest, leaf);
      RemoveColorOrder(path.rest, leaf);
      ZipInOrder(path.rest, leaf);
      ZipInOrder(path.rest, Join(path.dir, elm, path.longElm, path.key, path.at, path.longSib, path.sib));
    } else {
      RemoveColorBalanced(path, elm);
      RemoveColorOrder(path, elm);
    }
  }
}
