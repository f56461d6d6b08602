/** The functions that tree.h generates, as methods that rewrite the links of elements in place. */
module WavlRaw {
  import opened WavlTree
  import opened WavlOps
  import opened WavlMemory
  import opened WavlSteps
  import opened WavlUnlink
  import opened WavlSearch

  class RawTree {
    var root: Addr
    var mem: Memory
    ghost var tree: Tree<Addr>

    /** The links spell out `tree`, which obeys the weak-AVL rules and is in key order. */
    ghost predicate Valid()
      reads this
    {
      InPlace(mem, Top, tree, root) && Balanced(tree) && Sorted(InOrder(tree))
    }

    constructor ()
      ensures Valid() && InOrder(tree) == []
    {
      root, mem, tree := 0, map[], Nil;
    }

    /** RB_ROTATE. */
    method Rotate(elm: Addr, tmp: Addr, dir: Dir)
      requires elm in mem && tmp in mem && elm != tmp && mem[tmp].Link(dir) !in {elm, tmp}
      requires mem[tmp].Link(dir) != 0 ==> mem[tmp].Link(dir) in mem
      modifies `mem
      ensures Rotated(old(mem), mem, elm, tmp, dir)
    {
      var mid := mem[tmp].Link(dir);
      mem := mem[elm := mem[elm].SetLink(dir.Other(), mid)];
      if mid != 0 {
        mem := mem[mid := mem[mid].(up := elm)];
      }
      mem := mem[tmp := mem[tmp].SetLink(dir, elm)];
      mem := mem[elm := mem[elm].(up := tmp)];
    }

    /** RB_SWAP_CHILD: the link of `par`, or the root, that points at `out` points at `elm`. */
    method SwapChild(par: Addr, out: Addr, elm: Addr)
      requires par != 0 ==> par in mem
      modifies `mem, `root
      ensures par == 0 ==> mem == old(mem) && root == elm
      ensures par != 0 ==>
        root == old(root) &&
        mem == old(mem)[par := old(mem)[par].SetLink(if old(mem)[par].left == out then Left else Right, elm)]
    {
      if par == 0 {
        root := elm;
      } else if out == mem[par].left {
        mem := mem[par := mem[par].(left := elm)];
      } else {
        mem := mem[par := mem[par].(right := elm)];
      }
    }

    /** The rotation both rebalancing loops end with. */
    method Hoist(gpar: Addr, parent: Addr, child: Addr, dir: Dir,
                 ghost a: Tree<Addr>, ghost mid: Tree<Addr>, ghost b: Tree<Addr>, ghost rest: Path<Addr>)
      requires HoistReady(mem, root, parent, child, dir, a, mid, b, rest) && gpar == PathPtr(rest)
      modifies this
      ensures InPlace(mem, rest, Hoisted(parent, old(mem)[parent], child, old(mem)[child], dir, a, mid, b), root)
    {
      ghost var m, r := mem, root;
      HoistChecks(mem, root, parent, child, dir, a, mid, b, rest);
      hide Linked, LinkedPath, Cells, PathCells, Distinct, DistinctPath, Apart, HoistReady, InPlace, Hoisted;
      Rotate(parent, child, dir);
      ghost var m1 := mem;
      mem := mem[child := mem[child].(up := gpar)];
      SwapChild(gpar, parent, child);
      HoistInPlace(m, m1, mem, r, root, parent, child, dir, a, mid, b, rest);
    }

    /** The exclusive-ors between the two rotations of RB_INSERT_COLOR; at the end the bits of `child` are cleared. */
    method InsertDoubleBits(parent: Addr, elm: Addr, child: Addr, dir: Dir)
      requires parent in mem && elm in mem && child in mem && parent != elm && elm != child && parent != child
      modifies `mem
      ensures Recolored(old(mem), mem, {parent, elm, child})
      ensures var c := old(mem)[child];
        && mem[parent].Long(dir) == (old(mem)[parent].Long(dir) != c.Long(dir.Other()))
        && mem[parent].Long(dir.Other()) == old(mem)[parent].Long(dir.Other())
        && mem[elm].Long(dir) == !old(mem)[elm].Long(dir)
        && mem[elm].Long(dir.Other()) == (old(mem)[elm].Long(dir.Other()) != c.Long(dir))
        && !mem[child].longLeft && !mem[child].longRight
    {
      var up, p, e := mem[child], mem[parent], mem[elm];
      FlipFacts(p, dir);
      FlipFacts(e, dir);
      hide Recolored;
      if up.Long(dir.Other()) {
        p := p.Flip(dir);
      }
      e := if up.Long(dir) then e.FlipBoth() else e.Flip(dir);
      var c := up.(longLeft := false, longRight := false);
      mem := mem[parent := p][elm := e][child := c];
      ThreeRecolored(old(mem), mem, parent, elm, child, p, e, c);
    }

    /** The double rotation at the end of RB_INSERT_COLOR. */
    method InsertDouble(gpar: Addr, parent: Addr, elm: Addr, child: Addr, dir: Dir,
                        ghost t: Tree<Addr>, ghost b: Tree<Addr>, ghost rest: Path<Addr>)
      requires t.Node? && t.at == elm && t.Child(dir.Other()).Node? && t.Child(dir.Other()).at == child && t.Long(dir)
      requires HoistReady(mem, root, parent, elm, dir.Other(), t.Child(dir), t.Child(dir.Other()), b, rest) && gpar == PathPtr(rest)
      requires mem[elm].key == t.key && mem[elm].Long(dir) == t.Long(dir) && mem[elm].Long(dir.Other()) == t.Long(dir.Other())
      requires !mem[parent].longLeft && !mem[parent].longRight
      modifies this
      ensures InPlace(mem, rest, InsertRotate(dir, t, old(mem)[parent].key, parent, b), root)
    {
      var other := dir.Other();
      ghost var m, c := mem, t.Child(other);
      DoubleChecks(m, root, parent, elm, dir, t.Child(dir), c, b, rest);
      hide Linked, LinkedPath, Cells, PathCells, Distinct, DistinctPath, Apart, HoistReady, InPlace, Hoisted, InsertRotate;
      Rotate(elm, child, dir);
      ghost var m1 := mem;
      InsertDoubleBits(parent, elm, child, dir);
      ghost var m2 := mem;
      DoubleReady(m, m1, m2, root, parent, elm, dir, t.Child(dir), c, b, rest);
      InsertDoubleShape(m, m1, m2, dir, t, parent, b);
      ghost var low := Join(dir, t.Child(dir), m2[elm].Long(dir), m2[elm].key, elm, m2[elm].Long(other), c.Child(dir));
      Hoist(gpar, parent, child, other, low, c.Child(other), b, rest);
    }

    /** The rotations at the end of RB_INSERT_COLOR. */
    method InsertRotateInPlace(parent: Addr, elm: Addr, child: Addr, dir: Dir, ghost path: Path<Addr>, ghost t: Tree<Addr>)
      requires InPlace(mem, path, t, root) && path.Step? && path.dir == dir && path.at == parent && t.Node? && t.at == elm
      requires t.Long(dir) ==> t.Child(dir.Other()).Node? && child == t.Child(dir.Other()).at
      modifies this
      ensures InPlace(mem, path.rest, InsertRotate(dir, t, path.key, parent, path.sib), root)
    {
      hide Linked, LinkedPath, Cells, PathCells, Distinct, DistinctPath, InPlace, HoistReady;
      ghost var m0 := mem;
      SingleFields(m0, path, t, root);
      var gpar := mem[parent].up;
      hide Apart;
      mem := mem[parent := mem[parent].(longLeft := false, longRight := false)];
      if mem[elm].Long(dir) {
        SingleReady(m0, mem, path, t, root);
        InsertDouble(gpar, parent, elm, child, dir, t, path.sib, path.rest);
      } else {
        mem := mem[elm := mem[elm].(longLeft := false, longRight := false)];
        SingleReady(m0, mem, path, t, root);
        Hoist(gpar, parent, elm, dir.Other(), t.Child(dir), t.Child(dir.Other()), path.sib, path.rest);
      }
    }

    method InsertColor(parent0: Addr, elm0: Addr, ghost path0: Path<Addr>, ghost t0: Tree<Addr>)
      requires InPlace(mem, path0, t0, root) && Grown(path0, t0) && path0.Step? && path0.at == parent0 && t0.at == elm0
      requires t0.left.Nil? && t0.right.Nil?
      modifies this
      ensures InPlace(mem, Top, WavlTree.InsertColor(path0, t0), root)
    {
      hide Linked, LinkedPath, Cells, PathCells, Distinct, DistinctPath, InPlace, Grown, InsertRotate, Zip, WavlTree.InsertColor;
      var parent, elm, child := parent0, elm0, 0;
      ghost var path, t := path0, t0;
      GrownStep(path, t);
      while true
        invariant InPlace(mem, path, t, root) && Grown(path, t) && path.Step? && path.at == parent && t.Node? && t.at == elm
        invariant WavlTree.InsertColor(path, t) == WavlTree.InsertColor(path0, t0)
        invariant t.left.Node? || t.right.Node? ==> child == Ptr(if t.longLeft then t.right else t.left)
        decreases path
      {
        ghost var m := mem;
        StepFields(mem, path, t, root);
        GrownStep(path, t);
        var gpar := mem[parent];
        var dir := if mem[parent].right == elm then Right else Left;
        if gpar.Long(dir) {
          mem := mem[parent := mem[parent].SetLong(dir, false)];
          RecolorInPlace(m, mem, path, t, root, false, path.longSib);
          ZipInPlace(mem, path.(longElm := false), t, root);
          return;
        }
        mem := mem[parent := mem[parent].SetLong(dir.Other(), !gpar.Long(dir.Other()))];
        RecolorInPlace(m, mem, path, t, root, false, !path.longSib);
        if gpar.Long(dir.Other()) {
          InsertRotateInPlace(parent, elm, child, dir, path.(longSib := false), t);
          ZipInPlace(mem, path.rest, InsertRotate(dir, t, path.key, parent, path.sib), root);
          return;
        }
        FoldInPlace(mem, path.(longSib := true), t, root);
        path, t := path.rest, Join(path.dir, t, false, path.key, path.at, true, path.sib);
        child, elm := elm, parent;
        parent := gpar.up;
        if parent == 0 {
          ColorTop(path, t);
          return;
        }
      }
    }

    // ---------- RB_REMOVE_COLOR ----------

    /** The exclusive-ors between the two rotations of RB_REMOVE_COLOR. */
    method RemoveDoubleBits(parent: Addr, sib: Addr, elm: Addr, dir: Dir)
      requires parent in mem && sib in mem && elm in mem && parent != sib && sib != elm && parent != elm
      modifies `mem
      ensures Recolored(old(mem), mem, {parent, sib, elm})
      ensures var c := old(mem)[elm];
        && mem[parent].Long(dir) == !old(mem)[parent].Long(dir)
        && mem[parent].Long(dir.Other()) == (old(mem)[parent].Long(dir.Other()) != c.Long(dir))
        && mem[sib].Long(dir) == (old(mem)[sib].Long(dir) != c.Long(dir.Other()))
        && mem[sib].Long(dir.Other()) == !old(mem)[sib].Long(dir.Other())
        && mem[elm].longLeft && mem[elm].longRight
    {
      var up, p, s := mem[elm], mem[parent], mem[sib];
      FlipFacts(p, dir);
      FlipFacts(s, dir.Other());
      hide Recolored;
      p := if up.Long(dir) then p.FlipBoth() else p.Flip(dir);
      s := if up.Long(dir.Other()) then s.FlipBoth() else s.Flip(dir.Other());
      var e := up.(longLeft := true, longRight := true);
      mem := mem[parent := p][sib := s][elm := e];
      ThreeRecolored(old(mem), mem, parent, sib, elm, p, s, e);
    }

    method RemoveDouble(gpar: Addr, parent: Addr, sib: Addr, dir: Dir,
                        ghost t: Tree<Addr>, ghost s: Tree<Addr>, ghost rest: Path<Addr>)
      requires s.Node? && s.at == sib && s.Child(dir).Node? && s.Long(dir.Other()) && !s.Long(dir)
      requires HoistReady(mem, root, parent, sib, dir, s.Child(dir.Other()), s.Child(dir), t, rest) && gpar == PathPtr(rest)
      requires mem[sib].key == s.key && mem[sib].Long(dir) == s.Long(dir) && mem[sib].Long(dir.Other()) == s.Long(dir.Other())
      requires mem[parent].Long(dir) && !mem[parent].Long(dir.Other())
      modifies this
      ensures InPlace(mem, rest, RemoveRotate(dir, t, old(mem)[parent].key, parent, s), root)
    {
      hide Linked, LinkedPath, Cells, PathCells, Distinct, DistinctPath, InPlace, Hoisted, RemoveRotate;
      var other := dir.Other();
      ghost var m, c := mem, s.Child(dir);
      DoubleChecks(m, root, parent, sib, other, s.Child(other), c, t, rest);
      var elm := mem[sib].Link(dir);
      assert elm == c.at && parent != sib && parent in mem && sib in mem;
      hide HoistReady, Apart, Rotated, Recolored, Frame;
      Rotate(sib, elm, other);
      ghost var m1 := mem;
      RemoveDoubleBits(parent, sib, elm, dir);
      ghost var m2 := mem;
      DoubleReady(m, m1, m2, root, parent, sib, other, s.Child(other), c, t, rest);
      RemoveDoubleShape(m, m1, m2, dir, t, parent, s);
      ghost var low := Join(other, s.Child(other), m2[sib].Long(other), m2[sib].key, sib, m2[sib].Long(dir), c.Child(other));
      Hoist(gpar, parent, elm, dir, low, c.Child(dir), t, rest);
    }

    /** The rotations at the end of RB_REMOVE_COLOR. */
    method RemoveRotateInPlace(gpar: Addr, parent: Addr, sib: Addr, dir: Dir, ghost path: Path<Addr>, ghost t: Tree<Addr>)
      requires InPlace(mem, path, t, root) && path.Step? && path.dir == dir && path.at == parent && gpar == PathPtr(path.rest)
      requires path.longElm && !path.longSib && path.sib.Node? && path.sib.at == sib
      requires !(path.sib.longLeft && path.sib.longRight) && (path.sib.Long(dir.Other()) ==> path.sib.Child(dir).Node?)
      modifies this
      ensures InPlace(mem, path.rest, RemoveRotate(dir, t, path.key, parent, path.sib), root)
    {
      hide Linked, LinkedPath, Cells, PathCells, Distinct, DistinctPath, InPlace, HoistReady, RemoveRotate, Hoisted, Zip;
      ghost var m, s, flip := mem, path.sib, Flipped(path, t);
      FlipInPlace(m, path, t, root);
      SingleFields(m, flip, s, root);
      hide Apart;
      var other := dir.Other();
      var up := mem[sib];
      if up.Long(other) {
        SingleReady(m, mem, flip, s, root);
        RemoveDouble(gpar, parent, sib, dir, t, s, path.rest);
      } else {
        if up.Long(dir) {
          mem := mem[parent := mem[parent].SetLong(dir, !mem[parent].Long(dir))];
        }
        mem := mem[sib := mem[sib].SetLong(other, !mem[sib].Long(other))];
        SingleReady(m, mem, flip, s, root);
        RemoveSingleShape(m, mem, dir, t, parent, s);
        Hoist(gpar, parent, sib, dir, s.Child(other), s.Child(dir), t, path.rest);
      }
    }

    method RemoveColor(parent0: Addr, elm0: Addr, ghost path0: Path<Addr>, ghost t0: Tree<Addr>)
      requires InPlace(mem, path0, t0, root) && Shrunk(path0, t0) && path0.Step? && path0.at == parent0 && Ptr(t0) == elm0
      modifies this
      ensures InPlace(mem, Top, RemoveFix(path0, t0), root)
    {
      var parent, elm := parent0, elm0;
      ghost var path, t := path0, t0;
      StepFields(mem, path, t, root);
      ChildrenPresent(mem, path, t, root);
      if mem[parent].right == elm && mem[parent].left == elm {
        LeafFix(path, t);
        ghost var m := mem;
        mem := mem[parent := mem[parent].(longLeft := false, longRight := false)];
        RecolorInPlace(m, mem, path, t, root, false, false);
        FoldInPlace(mem, path.(longElm := false, longSib := false), t, root);
        path, t := path.rest, Join(path.dir, Nil, false, path.key, path.at, false, Nil);
        elm := parent;
        parent := mem[elm].up;
        if parent == 0 {
          return;
        }
      }
      RemoveColorLoop(parent, elm, path, t);
    }

    method RemoveColorLoop(parent0: Addr, elm0: Addr, ghost path0: Path<Addr>, ghost t0: Tree<Addr>)
      requires InPlace(mem, path0, t0, root) && Shrunk(path0, t0) && path0.Step? && path0.at == parent0 && Ptr(t0) == elm0
      requires t0.Nil? ==> path0.sib.Node?
      modifies this
      ensures InPlace(mem, Top, WavlTree.RemoveColor(path0, t0), root)
    {
      hide Linked, LinkedPath, Cells, PathCells, Distinct, DistinctPath, InPlace, Shrunk, RemoveRotate, Zip, WavlTree.RemoveColor;
      var parent, elm := parent0, elm0;
      ghost var path, t := path0, t0;
      while true
        invariant InPlace(mem, path, t, root) && Shrunk(path, t) && path.Step? && path.at == parent && Ptr(t) == elm
        invariant t.Nil? ==> path.sib.Node?
        invariant WavlTree.RemoveColor(path, t) == WavlTree.RemoveColor(path0, t0)
        decreases path
      {
        ghost var m := mem;
        StepFields(mem, path, t, root);
        ShrunkStep(path, t);
        var gpar := mem[parent];
        var dir := if mem[parent].right == elm then Right else Left;
        if !gpar.Long(dir) {
          mem := mem[parent := mem[parent].SetLong(dir, true)];
          RecolorInPlace(m, mem, path, t, root, true, path.longSib);
          ZipInPlace(mem, path.(longElm := true), t, root);
          return;
        }
        ghost var s := path.sib;
        if gpar.Long(dir.Other()) {
          mem := mem[parent := mem[parent].SetLong(dir.Other(), false)];
          RecolorInPlace(m, mem, path, t, root, true, false);
        } else {
          var sib := mem[parent].Link(dir.Other());
          SiblingFields(m, path, t, root);
          if !(mem[sib].longLeft && mem[sib].longRight) {
            RemoveRotateInPlace(gpar.up, parent, sib, dir, path, t);
            ZipInPlace(mem, path.rest, RemoveRotate(dir, t, path.key, parent, path.sib), root);
            return;
          }
          mem := mem[sib := mem[sib].(longLeft := false, longRight := false)];
          s := Demoted(s);
          RecolorSibling(m, mem, path, t, root);
        }
        FoldInPlace(mem, path.(longSib := false, sib := s), t, root);
        path, t := path.rest, Join(path.dir, t, true, path.key, path.at, false, s);
        elm := parent;
        parent := gpar.up;
        if parent == 0 {
          ColorTop(path, t);
          return;
        }
      }
    }

    // ---------- RB_REMOVE ----------

    /** The branch of RB_REMOVE for an element with at most one child. */
    method Splice(out: Addr, ghost path: Path<Addr>, ghost t: Tree<Addr>) returns (parent: Addr, child: Addr)
      requires InPlace(mem, path, t, root) && t.Node? && t.at == out && Balanced(t) && (t.left.Nil? || t.right.Nil?)
      modifies this
      ensures InPlace(mem, path, if t.right.Nil? then t.left else t.right, root)
      ensures parent == PathPtr(path) && child == Ptr(if t.right.Nil? then t.left else t.right)
    {
      ghost var m, r := mem, root;
      HoleFields(m, path, t, root);
      var opar := mem[out].up;
      child := if mem[out].right == 0 then mem[out].left else mem[out].right;
      parent := opar;
      hide Linked, LinkedPath, Cells, PathCells, Distinct, DistinctPath, Balanced, InPlace;
      Reattach(opar, out, child, child, parent, PathDir(path));
      SpliceInPlace(m, mem, r, root, path, t);
    }

    /** The writes of that branch: `in_`, found below the right child `r`, takes over the left child `l`, the
        right child and the up link and bits `opar`. */
    method MoveSuccessor(l: Addr, r: Addr, in_: Addr, opar: Links) returns (parent: Addr, child: Addr)
      requires {l, r, in_} <= mem.Keys && l != r && l != in_
      requires in_ != r ==> mem[in_].up in mem && mem[in_].up != in_ && mem[in_].up != l
      modifies `mem
      ensures mem.Keys == old(mem.Keys) && Frame(old(mem), mem, {l, r, in_, parent})
      ensures child == old(mem)[in_].right && parent == (if in_ == r then in_ else old(mem)[in_].up)
      ensures mem[l] == old(mem)[l].(up := in_)
      ensures mem[in_] == Links(opar.up, l, if in_ == r then child else r, opar.longLeft, opar.longRight, old(mem)[in_].key)
      ensures in_ != r && parent != r ==> mem[r] == old(mem)[r].(up := in_) && mem[parent] == old(mem)[parent].(left := child)
      ensures in_ != r && parent == r ==> mem[r] == old(mem)[r].(up := in_, left := child)
    {
      parent := r;
      mem := mem[l := mem[l].(up := in_)];
      mem := mem[in_ := mem[in_].(left := l)];
      child := mem[in_].right;
      if parent != in_ {
        mem := mem[parent := mem[parent].(up := in_)];
        mem := mem[in_ := mem[in_].(right := parent)];
        parent := mem[in_].up;
        mem := mem[parent := mem[parent].(left := child)];
      }
      mem := mem[in_ := mem[in_].(up := opar.up, longLeft := opar.longLeft, longRight := opar.longRight)];
    }

    /** The lines both branches of RB_REMOVE share: RB_SWAP_CHILD, and the up link of the child that moved. */
    method Reattach(opar: Addr, out: Addr, in_: Addr, child: Addr, parent: Addr, ghost dir: Dir)
      requires opar != 0 ==> opar in mem && (mem[opar].left == out <==> dir == Left)
      requires child != 0 ==> child in mem && child != opar
      modifies this
      ensures mem.Keys == old(mem.Keys) && Frame(old(mem), mem, {opar, child})
      ensures if opar == 0 then root == in_ else root == old(root) && mem[opar] == old(mem)[opar].SetLink(dir, in_)
      ensures child != 0 ==> mem[child] == old(mem)[child].(up := parent, longLeft := false, longRight := false)
    {
      SwapChild(opar, out, in_);
      if child != 0 {
        mem := mem[child := mem[child].(up := parent, longLeft := false, longRight := false)];
      }
    }

    /** The branch of RB_REMOVE for an element with two children: its successor takes its place and its bits. */
    method Replace(out: Addr, ghost path: Path<Addr>, ghost t: Tree<Addr>) returns (parent: Addr, child: Addr)
      requires InPlace(mem, path, t, root) && t.Node? && t.at == out && Balanced(t) && t.left.Node? && t.right.Node?
      modifies this
      ensures InPlace(mem, MinPath(SuccessorBase(path, t), t.right), Min(t.right).right, root)
      ensures parent == PathPtr(MinPath(SuccessorBase(path, t), t.right)) && child == Ptr(Min(t.right).right)
    {
      hide Linked, LinkedPath, Cells, PathCells, Distinct, DistinctPath, Balanced, InPlace, Min, MinPath, MinParent, HoleParent, Height, Few;
      ghost var m, r0 := mem, root;
      DownInPlace(mem, path, t, Right, root);
      ReplaceFields(m, root, path, t);
      var opar := mem[out];
      ghost var steps;
      var in_;
      in_, steps := Outermost(opar.right, Left, Down(path, t, Right), t.right);
      parent, child := MoveSuccessor(opar.left, opar.right, in_, opar);
      ghost var m1 := mem;
      Reattach(opar.up, out, in_, child, parent, PathDir(path));
      ReplacedBySteps(m, m1, mem, r0, root, path, t);
      ReplaceInPlace(m, mem, r0, root, path, t);
    }

    /** RB_REMOVE: exactly the element `out` leaves the list. */
    method Remove(out: Addr)
      requires Valid() && out in Cells(tree)
      modifies this
      ensures Valid()
      ensures exists e :: e in old(InOrder(tree)) && e.1 == out && InOrder(tree) == Without(old(InOrder(tree)), e.0)
    {
      hide Linked, LinkedPath, Cells, PathCells, Distinct, DistinctPath, InPlace, Balanced, PathBalanced, RemoveAt, Without, Locate;
      hide InOrder, Sorted, Min, MinPath, Shrunk;
      ghost var path, t := Locate(Top, tree, out).0, Locate(Top, tree, out).1;
      LocateInPlace(mem, Top, tree, root, out);
      ZipParts(path, t);
      ghost var result := RemoveAt(path, t);
      RemovedOrder(path, t);
      HoleFields(mem, path, t, root);
      RemoveAtShape(path, t);
      var parent, child;
      ghost var hole, elm;
      if mem[out].left == 0 || mem[out].right == 0 {
        parent, child := Splice(out, path, t);
        hole, elm := path, if t.right.Nil? then t.left else t.right;
      } else {
        parent, child := Replace(out, path, t);
        hole, elm := MinPath(SuccessorBase(path, t), t.right), Min(t.right).right;
      }
      PathPtrNonNull(mem, hole, elm, root);
      if parent != 0 {
        RemoveColor(parent, child, hole, elm);
      }
      tree := result;
    }

    /** RB_INSERT_FINISH: `elm` becomes the `dir` child of `parent`, or the root. */
    method InsertFinish(elm: Addr, key: nat, parent: Addr, dir: Dir, ghost path: Path<Addr>)
      requires InPlace(mem, path, Nil, root) && PathBalanced(path, 0)
      requires elm != 0 && elm !in PathCells(path) && elm in mem && mem[elm] == Links(0, 0, 0, false, false, key)
      requires parent == PathPtr(path) && (path.Step? ==> dir == path.dir)
      modifies this
      ensures InPlace(mem, Top, InsertAt(path, Nil, key, elm), root)
    {
      ghost var m, r := mem, root;
      PathPtrNonNull(m, path, Nil, r);
      mem := mem[elm := mem[elm].(up := parent, left := 0, right := 0)];
      if parent == 0 {
        root := elm;
      } else {
        PathPtrInCells(m, path, Nil, r);
        mem := mem[parent := mem[parent].SetLink(dir, elm)];
      }
      LeafInPlace(m, mem, path, r, root, elm, key);
      if parent != 0 {
        InsertColor(parent, elm, path, Node(Nil, false, key, elm, false, Nil));
      }
    }

    /** The loop of RB_INSERT. */
    method InsertSearch(key: nat, ghost elm: Addr) returns (found: Addr, parent: Addr, dir: Dir, ghost path: Path<Addr>, ghost steps: nat)
      requires Valid()
      ensures Few(tree, steps)
      ensures found != 0 ==> (key, found) in InOrder(tree) && WavlOps.Insert(tree, key, elm) == tree
      ensures found == 0 ==>
        && Searching(mem, root, tree, path, Nil, key) && InsertAt(path, Nil, key, elm) == WavlOps.Insert(tree, key, elm)
        && parent == PathPtr(path) && (path.Step? ==> dir == path.dir)
    {
      hide Balanced, Height, Few;
      found, parent, dir := root, 0, Left;
      path, steps := Top, 0;
      ghost var t := tree;
      SearchStart(mem, root, tree, key);
      while found != 0
        invariant steps + Height(t) <= Height(tree)
        invariant Searching(mem, root, tree, path, t, key) && InsertAt(path, t, key, elm) == WavlOps.Insert(tree, key, elm)
        invariant found == Ptr(t) && parent == PathPtr(path) && (path.Step? ==> dir == path.dir)
        decreases t
      {
        SearchStep(mem, root, tree, path, t, key);
        hide InPlace, Sorted, AllBelow, AllAbove;
        parent := found;
        if key == mem[parent].key {
          SearchFound(mem, root, tree, path, t, key);
          FewSteps(tree, steps);
          return;
        }
        dir := if key < mem[parent].key then Left else Right;
        found := mem[parent].Link(dir);
        ChildHeight(t, dir);
        path, t, steps := Down(path, t, dir), t.Child(dir), steps + 1;
      }
      SearchMissed(mem, root, tree, path, t, key);
      FewSteps(tree, steps);
    }

    /** RB_INSERT: a fresh element goes to its place in the list, unless the key is taken. */
    method Insert(elm: Addr, key: nat) returns (existing: Addr)
      requires Valid() && elm != 0 && elm !in Cells(tree)
      modifies this
      ensures Valid()
      ensures InOrder(tree) == Put(old(InOrder(tree)), key, elm)
      ensures existing != 0 ==> (key, existing) in old(InOrder(tree)) && tree == old(tree)
      ensures existing == 0 ==> forall e :: e in old(InOrder(tree)) ==> e.0 != key
    {
      hide Linked, LinkedPath, Cells, PathCells, Distinct, DistinctPath, InPlace, Balanced, PathBalanced, Put, InsertAt, Sorted, InOrder, Few;
      InsertSound(tree, key, elm);
      mem := mem[elm := Links(0, 0, 0, false, false, key)];
      UnlinkedElement(old(mem), mem, tree, root, elm);
      var parent, dir;
      ghost var path;
      ghost var steps;
      existing, parent, dir, path, steps := InsertSearch(key, elm);
      if existing == 0 {
        SearchMissed(mem, root, tree, path, Nil, key);
        ZipCells(path, Nil);
        ghost var result := WavlOps.Insert(tree, key, elm);
        InsertFinish(elm, key, parent, dir, path);
        tree := result;
      }
    }

    // ---------- Lookups ----------

    /** RB_FIND; the search makes no more steps than the tree is high. */
    method Find(key: nat) returns (a: Addr, ghost steps: nat)
      requires Valid()
      ensures a != 0 ==> (key, a) in InOrder(tree)
      ensures a == 0 ==> forall e :: e in InOrder(tree) ==> e.0 != key
      ensures Few(tree, steps)
    {
      hide Balanced, Height, Few;
      a, steps := root, 0;
      ghost var path, t := Top, tree;
      SearchStart(mem, root, tree, key);
      while a != 0
        invariant Searching(mem, root, tree, path, t, key) && a == Ptr(t) && steps + Height(t) <= Height(tree)
        decreases t
      {
        SearchStep(mem, root, tree, path, t, key);
        steps := steps + 1;
        ChildHeight(t, Left);
        ChildHeight(t, Right);
        if key < mem[a].key {
          a := mem[a].left;
          path, t := Down(path, t, Left), t.left;
        } else if key > mem[a].key {
          a := mem[a].right;
          path, t := Down(path, t, Right), t.right;
        } else {
          SearchFound(mem, root, tree, path, t, key);
          FewSteps(tree, steps);
          return;
        }
      }
      SearchMissed(mem, root, tree, path, t, key);
      FewSteps(tree, steps);
    }

    /** RB_NFIND: the first element whose key is at least `key`. */
    method NFind(key: nat) returns (res: Addr, ghost i: nat, ghost steps: nat)
      requires Valid()
      ensures Few(tree, steps)
      ensures var s := InOrder(tree);
        && i <= |s| && res == (if i < |s| then s[i].1 else 0) && (res != 0 <==> i < |s|)
        && (forall j :: 0 <= j < i ==> s[j].0 < key) && (forall j :: i <= j < |s| ==> s[j].0 >= key)
    {
      hide Balanced, Height, Few, InPlace, Sorted, InOrder, Zip;
      var tmp := root;
      res, steps := 0, 0;
      ghost var path, t := Top, tree;
      SearchStart(mem, root, tree, key);
      while tmp != 0
        invariant steps + Height(t) <= Height(tree)
        invariant Searching(mem, root, tree, path, t, key) && tmp == Ptr(t)
        invariant res == (if After(path) == [] then 0 else After(path)[0].1) && (res != 0 <==> After(path) != [])
        decreases t
      {
        SearchStep(mem, root, tree, path, t, key);
        steps := steps + 1;
        ChildHeight(t, Left);
        ChildHeight(t, Right);
        if key < mem[tmp].key {
          res := tmp;
          tmp := mem[tmp].left;
          path, t := Down(path, t, Left), t.left;
        } else if key > mem[tmp].key {
          tmp := mem[tmp].right;
          path, t := Down(path, t, Right), t.right;
        } else {
          SearchFound(mem, root, tree, path, t, key);
          i := |Before(path)| + |InOrder(t.left)|;
          FewSteps(tree, steps);
          return tmp, i, steps;
        }
      }
      SearchMissed(mem, root, tree, path, t, key);
      FewSteps(tree, steps);
      i := |Before(path)|;
    }

    /** Goes down from `start` in one direction as far as possible: the inner loop of RB_NEXT and RB_PREV and
        the loop of RB_MINMAX. */
    method Outermost(start: Addr, dir: Dir, ghost path: Path<Addr>, ghost t: Tree<Addr>) returns (a: Addr, ghost steps: nat)
      requires InPlace(mem, path, t, root) && start == Ptr(t) && t.Node?
      ensures steps < Height(t) && (Balanced(t) ==> Few(t, steps))
      ensures a != 0 && a == (if dir == Left then Min(t).at else Max(t).at)
    {
      hide Balanced, Height, Few;
      a, steps := start, 0;
      ghost var p, s := path, t;
      HoleFields(mem, p, s, root);
      while mem[a].Link(dir) != 0
        invariant steps + Height(s) <= Height(t)
        invariant InPlace(mem, p, s, root) && s.Node? && s.at == a && a in mem && mem[a].Link(dir) == Ptr(s.Child(dir))
        invariant if dir == Left then Min(s) == Min(t) else Max(s) == Max(t)
        decreases s
      {
        DownInPlace(mem, p, s, dir, root);
        a := mem[a].Link(dir);
        ChildHeight(s, dir);
        p, s, steps := Down(p, s, dir), s.Child(dir), steps + 1;
        HoleFields(mem, p, s, root);
      }
      HoleFields(mem, p, s, root);
      LinkedNonNull(mem, s, PathPtr(p));
      ChildHeight(s, dir);
      if Balanced(t) {
        FewSteps(t, steps);
      }
    }

    /** RB_MINMAX. */
    method MinMax(dir: Dir) returns (a: Addr, ghost steps: nat)
      requires Valid()
      ensures Few(tree, steps)
      ensures var s := InOrder(tree);
        && (a == 0 <==> s == [])
        && (a != 0 ==> a == if dir == Left then s[0].1 else s[|s| - 1].1)
    {
      if root == 0 {
        TreeNil(mem, Top, tree, root);
        FewSteps(tree, 0);
        return 0, 0;
      }
      MinFirst(tree);
      MaxLast(tree);
      a, steps := Outermost(root, dir, Top, tree);
    }

    /** The outer loop of RB_NEXT (`dir` is Right) and RB_PREV (Left): up, as long as the link came from `dir`. */
    method Climb(start: Addr, dir: Dir, ghost path: Path<Addr>, ghost t: Tree<Addr>) returns (a: Addr)
      requires InPlace(mem, path, t, root) && t.Node? && t.at == start
      ensures var side := if dir == Right then After(path) else Before(path);
        && (a == 0 <==> side == [])
        && (a != 0 ==> a == if dir == Right then side[0].1 else side[|side| - 1].1)
    {
      var elm := start;
      ghost var p, s := path, t;
      HoleFields(mem, p, s, root);
      while mem[elm].up != 0 && elm == mem[mem[elm].up].Link(dir)
        invariant InPlace(mem, p, s, root) && s.Node? && s.at == elm && elm in mem && mem[elm].up == PathPtr(p)
        invariant p.Step? <==> PathPtr(p) != 0
        invariant p.Step? ==> p.at in mem && (mem[p.at].Link(dir) == elm <==> p.dir == dir)
        invariant if dir == Right then After(p) == After(path) else Before(p) == Before(path)
        decreases p
      {
        FoldInPlace(mem, p, s, root);
        elm := mem[elm].up;
        p, s := p.rest, Join(p.dir, s, p.longElm, p.key, p.at, p.longSib, p.sib);
        HoleFields(mem, p, s, root);
        HoleLink(mem, p, s, root, dir);
      }
      a := mem[elm].up;
    }

    /** RB_NEXT and RB_PREV: the neighbour of an element in the list, or null at its end. */
    method Neighbour(elm: Addr, dir: Dir) returns (a: Addr, ghost i: nat)
      requires Valid() && elm in Cells(tree)
      ensures var s := InOrder(tree);
        && i < |s| && s[i].1 == elm
        && (a == 0 <==> (if dir == Right then i + 1 == |s| else i == 0))
        && (a != 0 ==> a == if dir == Right then s[i + 1].1 else s[i - 1].1)
    {
      hide Linked, LinkedPath, Cells, PathCells, Distinct, DistinctPath, InPlace, Balanced, Locate, InOrder, Sorted, Before, After, Few, Height, Min, Max;
      ghost var path, t := Locate(Top, tree, elm).0, Locate(Top, tree, elm).1;
      LocateInPlace(mem, Top, tree, root, elm);
      i := |Before(path)| + |InOrder(t.left)|;
      NodeSplit(path, t);
      Neighbours(Before(path) + InOrder(t.left), (t.key, t.at), InOrder(t.right) + After(path));
      HoleFields(mem, path, t, root);
      if mem[elm].Link(dir) != 0 {
        DownInPlace(mem, path, t, dir, root);
        ghost var steps;
        a, steps := Outermost(mem[elm].Link(dir), dir.Other(), Down(path, t, dir), t.Child(dir));
        MinFirst(t.Child(dir));
        MaxLast(t.Child(dir));
      } else {
        HoleLink(mem, path, t, root, dir);
        EmptyOrder(t.Child(dir));
        a := Climb(elm, dir, path, t);
      }
    }

    /** wAVLTree::FindNodeOrLower: the last element whose key is at most `key`. */
    method FindNodeOrLower(key: nat) returns (a: Addr, ghost i: nat)
      requires Valid()
      ensures var s := InOrder(tree);
        && i <= |s| && (a == 0 <==> i == 0) && (a != 0 ==> a == s[i - 1].1)
        && (forall j :: 0 <= j < i ==> s[j].0 <= key) && (forall j :: i <= j < |s| ==> s[j].0 > key)
    {
      hide Linked, LinkedPath, Cells, Distinct, Balanced, InOrder, Few;
      ghost var steps;
      a, i, steps := NFind(key);
      if a == 0 {
        a, steps := MinMax(Right);
        return;
      }
      OnePosition(tree);
      ghost var s := InOrder(tree);
      assert s[i] in s;
      ElementKey(mem, Top, tree, root, i);
      if mem[a].key > key {
        ghost var k;
        a, k := Neighbour(a, Left);
        return;
      }
      i := i + 1;
    }

    /** wAVLTree::Clear: the next element is looked up before the current one is taken out. */
    method Clear()
      requires Valid()
      modifies this
      ensures Valid() && InOrder(tree) == []
    {
      ghost var steps;
      var node;
      node, steps := MinMax(Left);
      while node != 0
        invariant Valid() && (node == 0 <==> InOrder(tree) == []) && (node != 0 ==> node == InOrder(tree)[0].1)
        decreases |InOrder(tree)|
      {
        ghost var s := InOrder(tree);
        assert s[0] in s;
        OnePosition(tree);
        ghost var i;
        var next;
        next, i := Neighbour(node, Right);
        Remove(node);
        assert Without(s, s[0].0) == s[1..];
        node := next;
      }
    }
  }
}
