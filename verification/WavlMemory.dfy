/** The memory image of a rank-balanced tree: elements at addresses, joined by the `rbe_link` fields. */
module WavlMemory {
  import opened WavlTree

  /** The address of an element; 0 is the null pointer. */
  type Addr = nat

  /** The fields of one element.  The two low bits of the up link, which say that the left or right edge is
      long, are kept beside it. */
  datatype Links = Links(up: Addr, left: Addr, right: Addr, longLeft: bool, longRight: bool, key: nat) {
    function Link(d: Dir): Addr { if d == Left then left else right }
    predicate Long(d: Dir) { if d == Left then longLeft else longRight }
    function SetLink(d: Dir, a: Addr): Links { if d == Left then this.(left := a) else this.(right := a) }
    function SetLong(d: Dir, b: bool): Links { if d == Left then this.(longLeft := b) else this.(longRight := b) }
    function Flip(d: Dir): Links { SetLong(d, !Long(d)) }
    function FlipBoth(): Links { this.(longLeft := !longLeft, longRight := !longRight) }
  }

  type Memory = map<Addr, Links>

  function Ptr(t: Tree<Addr>): Addr {
    if t.Nil? then 0 else t.at
  }

  function PathPtr(path: Path<Addr>): Addr {
    if path.Top? then 0 else path.at
  }

  function Cells(t: Tree<Addr>): set<Addr> {
    if t.Nil? then {} else {t.at} + Cells(t.left) + Cells(t.right)
  }

  function PathCells(path: Path<Addr>): set<Addr>
    decreases path
  {
    if path.Top? then {} else {path.at} + Cells(path.sib) + PathCells(path.rest)
  }

  /** No element occurs twice in a tree. */
  predicate Distinct(t: Tree<Addr>) {
    t.Node? ==>
      && Distinct(t.left) && Distinct(t.right)
      && t.at !in Cells(t.left) && t.at !in Cells(t.right) && Cells(t.left) !! Cells(t.right)
  }

  predicate DistinctPath(path: Path<Addr>)
    decreases path
  {
    path.Step? ==>
      && Distinct(path.sib) && DistinctPath(path.rest)
      && path.at !in Cells(path.sib) && path.at !in PathCells(path.rest) && Cells(path.sib) !! PathCells(path.rest)
  }

  /** The fields an element has as a node with child `elm` in direction `dir` and `sib` in the other. */
  function Fields(up: Addr, dir: Dir, elm: Addr, longElm: bool, key: nat, longSib: bool, sib: Addr): Links {
    if dir == Left then Links(up, elm, sib, longElm, longSib, key) else Links(up, sib, elm, longSib, longElm, key)
  }

  /** Memory holds the tree `t` below the element `up`. */
  predicate Linked(m: Memory, t: Tree<Addr>, up: Addr)
    decreases t
  {
    t.Node? ==>
      && t.at != 0 && t.at in m
      && m[t.at] == Fields(up, Left, Ptr(t.left), t.longLeft, t.key, t.longRight, Ptr(t.right))
      && Linked(m, t.left, t.at) && Linked(m, t.right, t.at)
  }

  /** Memory holds the tree above a hole, down to the link that points at `hole`. */
  predicate LinkedPath(m: Memory, path: Path<Addr>, hole: Addr, root: Addr)
    decreases path
  {
    if path.Top? then root == hole
    else
      && path.at != 0 && path.at in m
      && m[path.at] == Fields(PathPtr(path.rest), path.dir, hole, path.longElm, path.key, path.longSib, Ptr(path.sib))
      && Linked(m, path.sib, path.at) && LinkedPath(m, path.rest, path.at, root)
  }

  /** Memory holds the tree `t` in the hole of `path`. */
  predicate InPlace(m: Memory, path: Path<Addr>, t: Tree<Addr>, root: Addr) {
    && Linked(m, t, PathPtr(path)) && LinkedPath(m, path, Ptr(t), root)
    && Distinct(t) && DistinctPath(path) && Cells(t) !! PathCells(path)
  }

  /** Memory changed at most at these elements. */
  ghost predicate Frame(m: Memory, m': Memory, touched: set<Addr>) {
    forall a :: a in m && a !in touched ==> a in m' && m'[a] == m[a]
  }

  lemma {:induction false} LinkedFrame(m: Memory, m': Memory, touched: set<Addr>, t: Tree<Addr>, up: Addr)
    requires Linked(m, t, up) && Frame(m, m', touched) && Cells(t) !! touched
    ensures Linked(m', t, up)
    decreases t
  {
    if t.Node? {
      LinkedFrame(m, m', touched, t.left, t.at);
      LinkedFrame(m, m', touched, t.right, t.at);
    }
  }

  lemma {:induction false} LinkedPathFrame(m: Memory, m': Memory, touched: set<Addr>, path: Path<Addr>, hole: Addr, root: Addr)
    requires LinkedPath(m, path, hole, root) && Frame(m, m', touched) && PathCells(path) !! touched
    ensures LinkedPath(m', path, hole, root)
    decreases path
  {
    if path.Step? {
      LinkedFrame(m, m', touched, path.sib, path.at);
      LinkedPathFrame(m, m', touched, path.rest, path.at, root);
    }
  }

  /** A subtree whose root is only given another parent. */
  lemma LinkedMoved(m: Memory, m': Memory, touched: set<Addr>, t: Tree<Addr>, up: Addr, up': Addr)
    requires Linked(m, t, up) && Distinct(t) && Frame(m, m', touched)
    requires forall a :: a in Cells(t) && a in touched ==> a == Ptr(t)
    requires t.Node? ==> t.at in m' && m'[t.at] == m[t.at].(up := up')
    ensures Linked(m', t, up')
  {
    if t.Node? {
      LinkedFrame(m, m', touched, t.left, t.at);
      LinkedFrame(m, m', touched, t.right, t.at);
    }
  }

  /** A path whose lowest link is redirected. */
  lemma LinkedPathMoved(m: Memory, m': Memory, touched: set<Addr>, path: Path<Addr>, hole: Addr, root: Addr, hole': Addr, root': Addr)
    requires LinkedPath(m, path, hole, root) && DistinctPath(path) && Frame(m, m', touched)
    requires forall a :: a in PathCells(path) && a in touched ==> a == PathPtr(path)
    requires path.Top? ==> root' == hole'
    requires path.Step? ==> root' == root && path.at in m' && m'[path.at] == m[path.at].SetLink(path.dir, hole')
    ensures LinkedPath(m', path, hole', root')
  {
    if path.Step? {
      LinkedFrame(m, m', touched, path.sib, path.at);
      LinkedPathFrame(m, m', touched, path.rest, path.at, root);
    }
  }

  lemma {:induction false} LinkedNonNull(m: Memory, t: Tree<Addr>, up: Addr)
    requires Linked(m, t, up)
    ensures 0 !in Cells(t) && Cells(t) <= m.Keys && (t.Node? ==> Ptr(t) in Cells(t))
    decreases t
  {
    if t.Node? {
      LinkedNonNull(m, t.left, t.at);
      LinkedNonNull(m, t.right, t.at);
    }
  }

  lemma {:induction false} LinkedPathNonNull(m: Memory, path: Path<Addr>, hole: Addr, root: Addr)
    requires LinkedPath(m, path, hole, root)
    ensures 0 !in PathCells(path) && PathCells(path) <= m.Keys && (path.Step? ==> PathPtr(path) in PathCells(path))
    decreases path
  {
    if path.Step? {
      LinkedNonNull(m, path.sib, path.at);
      LinkedPathNonNull(m, path.rest, path.at, root);
    }
  }

  lemma JoinLinked(m: Memory, dir: Dir, elm: Tree<Addr>, longElm: bool, key: nat, at: Addr, longSib: bool, sib: Tree<Addr>, up: Addr)
    requires at != 0 && at in m && m[at] == Fields(up, dir, Ptr(elm), longElm, key, longSib, Ptr(sib))
    requires Linked(m, elm, at) && Linked(m, sib, at)
    ensures Linked(m, Join(dir, elm, longElm, key, at, longSib, sib), up)
  {
  }

  lemma JoinCells(dir: Dir, elm: Tree<Addr>, longElm: bool, key: nat, at: Addr, longSib: bool, sib: Tree<Addr>)
    ensures Cells(Join(dir, elm, longElm, key, at, longSib, sib)) == {at} + Cells(elm) + Cells(sib)
    ensures Distinct(Join(dir, elm, longElm, key, at, longSib, sib)) <==>
      Distinct(elm) && Distinct(sib) && at !in Cells(elm) && at !in Cells(sib) && Cells(elm) !! Cells(sib)
  {
  }

  /** Closing the lowest step of a path. */
  lemma FoldInPlace(m: Memory, path: Path<Addr>, t: Tree<Addr>, root: Addr)
    requires InPlace(m, path, t, root) && path.Step?
    ensures var t' := Join(path.dir, t, path.longElm, path.key, path.at, path.longSib, path.sib);
      InPlace(m, path.rest, t', root)
  {
    JoinLinked(m, path.dir, t, path.longElm, path.key, path.at, path.longSib, path.sib, PathPtr(path.rest));
    JoinCells(path.dir, t, path.longElm, path.key, path.at, path.longSib, path.sib);
  }

  lemma {:induction false} ZipInPlace(m: Memory, path: Path<Addr>, t: Tree<Addr>, root: Addr)
    requires InPlace(m, path, t, root)
    ensures InPlace(m, Top, Zip(path, t), root)
    decreases path
  {
    if path.Step? {
      FoldInPlace(m, path, t, root);
      ZipInPlace(m, path.rest, Join(path.dir, t, path.longElm, path.key, path.at, path.longSib, path.sib), root);
    }
  }

  /** Opening a node into a path and one of its children. */
  lemma DownInPlace(m: Memory, path: Path<Addr>, t: Tree<Addr>, dir: Dir, root: Addr)
    requires InPlace(m, path, t, root) && t.Node?
    ensures InPlace(m, Down(path, t, dir), t.Child(dir), root)
  {
  }

  /** The lowest node of a path gets other bits. */
  lemma RecolorInPlace(m: Memory, m': Memory, path: Path<Addr>, t: Tree<Addr>, root: Addr, longElm: bool, longSib: bool)
    requires InPlace(m, path, t, root) && path.Step?
    requires m' == m[path.at := m[path.at].SetLong(path.dir, longElm).SetLong(path.dir.Other(), longSib)]
    ensures InPlace(m', path.(longElm := longElm, longSib := longSib), t, root)
  {
    LinkedFrame(m, m', {path.at}, t, path.at);
    LinkedFrame(m, m', {path.at}, path.sib, path.at);
    LinkedPathFrame(m, m', {path.at}, path.rest, path.at, root);
  }

  // ---------- Rotations ----------

  /** The writes of RB_ROTATE(elm, tmp, dir): `tmp` is the child of `elm` away from `dir`, and what hangs on
      its `dir` side goes over to `elm`. */
  ghost predicate Rotated(m: Memory, m': Memory, elm: Addr, tmp: Addr, dir: Dir)
    requires elm in m && tmp in m
  {
    var mid := m[tmp].Link(dir);
    && m'.Keys == m.Keys
    && m'[elm] == m[elm].SetLink(dir.Other(), mid).(up := tmp)
    && m'[tmp] == m[tmp].SetLink(dir, elm)
    && (mid != 0 ==> mid in m && m'[mid] == m[mid].(up := elm))
    && Frame(m, m', {elm, tmp, mid})
  }

  /** Two elements, three subtrees and the path above them share no element. */
  ghost predicate Apart(p: Addr, c: Addr, a: Tree<Addr>, mid: Tree<Addr>, b: Tree<Addr>, rest: Path<Addr>) {
    && Distinct(a) && Distinct(mid) && Distinct(b) && DistinctPath(rest)
    && p != 0 && c != 0 && p != c
    && p !in Cells(a) && p !in Cells(mid) && p !in Cells(b) && p !in PathCells(rest)
    && c !in Cells(a) && c !in Cells(mid) && c !in Cells(b) && c !in PathCells(rest)
    && Cells(a) !! Cells(mid) && Cells(a) !! Cells(b) && Cells(mid) !! Cells(b)
    && Cells(a) !! PathCells(rest) && Cells(mid) !! PathCells(rest) && Cells(b) !! PathCells(rest)
  }

  lemma ApartTwo(p: Addr, c: Addr, a: Tree<Addr>, mid: Tree<Addr>, b: Tree<Addr>, rest: Path<Addr>)
    requires Apart(p, c, a, mid, b, rest)
    ensures p != c && Cells(a) !! {p, c} && Cells(mid) !! {p, c} && Cells(b) !! {p, c} && PathCells(rest) !! {p, c}
  {
    hide Cells, PathCells, Distinct, DistinctPath;
  }

  /** Before the rotation that ends both rebalancing loops: `child` has subtrees `mid` (in direction `dir`) and
      `a`, and `parent`, which keeps `b`, hangs below `rest`. */
  ghost predicate HoistReady(m: Memory, root: Addr, parent: Addr, child: Addr, dir: Dir,
                             a: Tree<Addr>, mid: Tree<Addr>, b: Tree<Addr>, rest: Path<Addr>)
  {
    && Apart(parent, child, a, mid, b, rest) && parent in m && child in m
    && Linked(m, a, child) && Linked(m, mid, child) && Linked(m, b, parent) && LinkedPath(m, rest, parent, root)
    && m[child].Link(dir) == Ptr(mid) && m[child].Link(dir.Other()) == Ptr(a) && m[parent].Link(dir) == Ptr(b)
  }

  /** The subtree after it: `parent` is the `dir` child of `child`, and all four bits are as they were. */
  ghost function Hoisted(parent: Addr, p: Links, child: Addr, c: Links, dir: Dir,
                         a: Tree<Addr>, mid: Tree<Addr>, b: Tree<Addr>): Tree<Addr>
  {
    Join(dir, Join(dir, b, p.Long(dir), p.key, parent, p.Long(dir.Other()), mid),
         c.Long(dir), c.key, child, c.Long(dir.Other()), a)
  }

  /** RB_ROTATE(parent, child, dir), the new up link of `child` and RB_SWAP_CHILD below `gpar` together. */
  ghost predicate HoistWrites(m: Memory, m1: Memory, m2: Memory, root: Addr, root': Addr,
                              parent: Addr, child: Addr, dir: Dir, gpar: Addr, gdir: Dir)
    requires parent in m && child in m
  {
    && Rotated(m, m1, parent, child, dir)
    && var m' := m1[child := m1[child].(up := gpar)];
       if gpar == 0 then m2 == m' && root' == child
       else gpar in m' && m2 == m'[gpar := m'[gpar].SetLink(gdir, child)] && root' == root
  }

  lemma HoistFrame(m: Memory, m1: Memory, m2: Memory, root: Addr, root': Addr,
                   parent: Addr, child: Addr, dir: Dir, gpar: Addr, gdir: Dir)
    requires parent in m && child in m && parent != child && gpar !in {parent, child}
    requires HoistWrites(m, m1, m2, root, root', parent, child, dir, gpar, gdir)
    requires m[child].Link(dir) !in {parent, child} && (m[child].Link(dir) == gpar ==> gpar == 0)
    ensures Frame(m, m2, {parent, child, gpar, m[child].Link(dir)})
    ensures parent in m2 && m2[parent] == m[parent].SetLink(dir.Other(), m[child].Link(dir)).(up := child)
    ensures child in m2 && m2[child] == m[child].SetLink(dir, parent).(up := gpar)
    ensures var mid := m[child].Link(dir); mid != 0 ==> mid in m && mid in m2 && m2[mid] == m[mid].(up := parent)
    ensures gpar != 0 ==> gpar in m && gpar in m2 && m2[gpar] == m[gpar].SetLink(gdir, child)
  {
  }

  lemma RootMoved(m: Memory, m1: Memory, m2: Memory, root: Addr, root': Addr,
                  parent: Addr, child: Addr, dir: Dir, gpar: Addr, gdir: Dir)
    requires parent in m && child in m && HoistWrites(m, m1, m2, root, root', parent, child, dir, gpar, gdir)
    ensures root' == if gpar == 0 then child else root
  {
  }

  ghost function PathDir(path: Path<Addr>): Dir {
    if path.Top? then Left else path.dir
  }

  lemma HoistParts(m: Memory, m1: Memory, m2: Memory, root: Addr, root': Addr, parent: Addr, child: Addr, dir: Dir,
                   a: Tree<Addr>, mid: Tree<Addr>, b: Tree<Addr>, rest: Path<Addr>)
    requires HoistReady(m, root, parent, child, dir, a, mid, b, rest)
    requires HoistWrites(m, m1, m2, root, root', parent, child, dir, PathPtr(rest), PathDir(rest))
    ensures Linked(m2, a, child) && Linked(m2, b, parent) && Linked(m2, mid, parent)
    ensures LinkedPath(m2, rest, child, root')
    ensures parent in m2 && m2[parent] == m[parent].SetLink(dir.Other(), Ptr(mid)).(up := child)
    ensures child in m2 && m2[child] == m[child].SetLink(dir, parent).(up := PathPtr(rest))
  {
    hide Linked, LinkedPath, Cells, PathCells, Distinct, DistinctPath, HoistWrites, Frame;
    LinkedNonNull(m, a, child);
    LinkedNonNull(m, b, parent);
    LinkedNonNull(m, mid, child);
    LinkedPathNonNull(m, rest, parent, root);
    HoistFrame(m, m1, m2, root, root', parent, child, dir, PathPtr(rest), PathDir(rest));
    RootMoved(m, m1, m2, root, root', parent, child, dir, PathPtr(rest), PathDir(rest));
    var touched := {parent, child, PathPtr(rest), Ptr(mid)};
    LinkedFrame(m, m2, touched, a, child);
    LinkedFrame(m, m2, touched, b, parent);
    LinkedMoved(m, m2, touched, mid, child, parent);
    LinkedPathMoved(m, m2, touched, rest, parent, root, child, root');
  }

  lemma HoistApart(parent: Addr, p: Links, child: Addr, c: Links, dir: Dir,
                   a: Tree<Addr>, mid: Tree<Addr>, b: Tree<Addr>, rest: Path<Addr>)
    requires Apart(parent, child, a, mid, b, rest)
    ensures Distinct(Hoisted(parent, p, child, c, dir, a, mid, b))
    ensures Cells(Hoisted(parent, p, child, c, dir, a, mid, b)) !! PathCells(rest)
  {
    hide Cells, PathCells, Distinct, DistinctPath;
    var low := Join(dir, b, p.Long(dir), p.key, parent, p.Long(dir.Other()), mid);
    JoinCells(dir, b, p.Long(dir), p.key, parent, p.Long(dir.Other()), mid);
    JoinCells(dir, low, c.Long(dir), c.key, child, c.Long(dir.Other()), a);
  }

  lemma HoistJoin(m: Memory, parent: Addr, child: Addr, dir: Dir, p: Links, c: Links,
                  a: Tree<Addr>, mid: Tree<Addr>, b: Tree<Addr>, gpar: Addr)
    requires parent != 0 && child != 0
    requires Linked(m, a, child) && Linked(m, b, parent) && Linked(m, mid, parent)
    requires parent in m && m[parent] == p.SetLink(dir.Other(), Ptr(mid)).(up := child) && p.Link(dir) == Ptr(b)
    requires child in m && m[child] == c.SetLink(dir, parent).(up := gpar) && c.Link(dir.Other()) == Ptr(a)
    ensures Linked(m, Hoisted(parent, p, child, c, dir, a, mid, b), gpar)
  {
    hide Linked;
    var low := Join(dir, b, p.Long(dir), p.key, parent, p.Long(dir.Other()), mid);
    JoinLinked(m, dir, b, p.Long(dir), p.key, parent, p.Long(dir.Other()), mid, child);
    JoinLinked(m, dir, low, c.Long(dir), c.key, child, c.Long(dir.Other()), a, gpar);
  }

  lemma HoistInPlace(m: Memory, m1: Memory, m2: Memory, root: Addr, root': Addr, parent: Addr, child: Addr, dir: Dir,
                     a: Tree<Addr>, mid: Tree<Addr>, b: Tree<Addr>, rest: Path<Addr>)
    requires HoistReady(m, root, parent, child, dir, a, mid, b, rest)
    requires HoistWrites(m, m1, m2, root, root', parent, child, dir, PathPtr(rest), PathDir(rest))
    ensures InPlace(m2, rest, Hoisted(parent, m[parent], child, m[child], dir, a, mid, b), root')
  {
    hide Linked, LinkedPath, Cells, PathCells, Distinct, DistinctPath, Rotated;
    HoistParts(m, m1, m2, root, root', parent, child, dir, a, mid, b, rest);
    HoistJoin(m2, parent, child, dir, m[parent], m[child], a, mid, b, PathPtr(rest));
    HoistApart(parent, m[parent], child, m[child], dir, a, mid, b, rest);
  }

  /** Only the edge bits of these elements may differ. */
  ghost predicate Recolored(m: Memory, m': Memory, s: set<Addr>) {
    && m'.Keys == m.Keys
    && Frame(m, m', s)
    && forall a :: a in s && a in m ==> m'[a] == m[a].(longLeft := m'[a].longLeft, longRight := m'[a].longRight)
  }

  /** Other bits of the same element. */
  predicate SameLinks(l: Links, l': Links) {
    l' == l.(longLeft := l'.longLeft, longRight := l'.longRight)
  }

  lemma FlipFacts(l: Links, dir: Dir)
    ensures SameLinks(l, l.Flip(dir)) && l.Flip(dir).Long(dir) == !l.Long(dir) && l.Flip(dir).Long(dir.Other()) == l.Long(dir.Other())
    ensures SameLinks(l, l.FlipBoth()) && l.FlipBoth().Long(dir) == !l.Long(dir) && l.FlipBoth().Long(dir.Other()) == !l.Long(dir.Other())
  {
  }

  lemma ThreeRecolored(m: Memory, m': Memory, a: Addr, b: Addr, c: Addr, x: Links, y: Links, z: Links)
    requires a in m && b in m && c in m && a != b && b != c && a != c && SameLinks(m[a], x) && SameLinks(m[b], y) && SameLinks(m[c], z)
    requires m' == m[a := x][b := y][c := z]
    ensures Recolored(m, m', {a, b, c}) && m'[a] == x && m'[b] == y && m'[c] == z
  {
  }

  /** The node in a hole and the node above it. */
  lemma SingleFields(m: Memory, path: Path<Addr>, t: Tree<Addr>, root: Addr)
    requires InPlace(m, path, t, root) && path.Step? && t.Node?
    ensures Apart(path.at, t.at, t.Child(path.dir), t.Child(path.dir.Other()), path.sib, path.rest) && path.at in m && t.at in m
    ensures m[t.at] == Fields(path.at, path.dir, Ptr(t.Child(path.dir)), t.Long(path.dir), t.key, t.Long(path.dir.Other()), Ptr(t.Child(path.dir.Other())))
    ensures m[path.at] == Fields(PathPtr(path.rest), path.dir, t.at, path.longElm, path.key, path.longSib, Ptr(path.sib))
    ensures Linked(m, t.Child(path.dir), t.at) && Linked(m, t.Child(path.dir.Other()), t.at) && Linked(m, path.sib, path.at)
    ensures LinkedPath(m, path.rest, path.at, root)
  {
    OpenCells(t, path.dir);
  }

  /** A hole filled by the node `t` is ready for `t` to be hoisted above its parent. */
  lemma SingleReady(m: Memory, m': Memory, path: Path<Addr>, t: Tree<Addr>, root: Addr)
    requires InPlace(m, path, t, root) && path.Step? && t.Node? && Recolored(m, m', {path.at, t.at})
    ensures HoistReady(m', root, path.at, t.at, path.dir.Other(), t.Child(path.dir), t.Child(path.dir.Other()), path.sib, path.rest)
  {
    hide Linked, LinkedPath, Cells, PathCells, Distinct, DistinctPath, InPlace, Apart;
    SingleFields(m, path, t, root);
    ApartTwo(path.at, t.at, t.Child(path.dir), t.Child(path.dir.Other()), path.sib, path.rest);
    LinkedFrame(m, m', {path.at, t.at}, t.Child(path.dir), t.at);
    LinkedFrame(m, m', {path.at, t.at}, t.Child(path.dir.Other()), t.at);
    LinkedFrame(m, m', {path.at, t.at}, path.sib, path.at);
    LinkedPathFrame(m, m', {path.at, t.at}, path.rest, path.at, root);
  }

  lemma OpenLinked(m: Memory, t: Tree<Addr>, up: Addr, dir: Dir)
    requires t.Node? && Linked(m, t, up)
    ensures t.at != 0 && t.at in m
    ensures m[t.at] == Fields(up, dir, Ptr(t.Child(dir)), t.Long(dir), t.key, t.Long(dir.Other()), Ptr(t.Child(dir.Other())))
    ensures Linked(m, t.Child(dir), t.at) && Linked(m, t.Child(dir.Other()), t.at)
  {
  }

  lemma OpenCells(t: Tree<Addr>, dir: Dir)
    requires t.Node? && Distinct(t)
    ensures Distinct(t.Child(dir)) && Distinct(t.Child(dir.Other()))
    ensures Cells(t) == {t.at} + Cells(t.Child(dir)) + Cells(t.Child(dir.Other()))
    ensures t.at !in Cells(t.Child(dir)) && t.at !in Cells(t.Child(dir.Other())) && Cells(t.Child(dir)) !! Cells(t.Child(dir.Other()))
  {
  }

  lemma DoubleFrame(m: Memory, m1: Memory, m2: Memory, p: Addr, e: Addr, c: Addr, dir: Dir)
    requires p in m && e in m && c in m && p != e && e != c && p != c && m[c].Link(dir) !in {p, e, c}
    requires Rotated(m, m1, e, c, dir) && Recolored(m1, m2, {p, e, c})
    ensures p in m2 && e in m2 && c in m2
    ensures Frame(m, m2, {p, e, c, m[c].Link(dir)})
    ensures var mid := m[c].Link(dir); mid != 0 ==> mid in m && mid in m2 && m2[mid] == m[mid].(up := e)
    ensures m2[e] == m[e].SetLink(dir.Other(), m[c].Link(dir)).(up := c, longLeft := m2[e].longLeft, longRight := m2[e].longRight)
    ensures m2[c] == m[c].SetLink(dir, e).(longLeft := m2[c].longLeft, longRight := m2[c].longRight)
    ensures m2[p] == m[p].(longLeft := m2[p].longLeft, longRight := m2[p].longRight)
  {
  }

  lemma DoubleParts(m: Memory, m2: Memory, root: Addr, parent: Addr, e: Addr, c: Addr,
                    w: Tree<Addr>, x: Tree<Addr>, y: Tree<Addr>, b: Tree<Addr>, rest: Path<Addr>)
    requires Linked(m, w, e) && Linked(m, x, c) && Linked(m, y, c) && Linked(m, b, parent) && LinkedPath(m, rest, parent, root)
    requires Frame(m, m2, {parent, e, c, Ptr(x)})
    requires Apart(parent, e, w, x, b, rest) && Apart(parent, e, w, y, b, rest) && Cells(x) !! Cells(y)
    requires c !in Cells(w) && c !in Cells(x) && c !in Cells(y) && c !in Cells(b) && c !in PathCells(rest)
    requires x.Node? ==> x.at in m2 && m2[x.at] == m[x.at].(up := e)
    ensures Linked(m2, w, e) && Linked(m2, x, e) && Linked(m2, y, c) && Linked(m2, b, parent) && LinkedPath(m2, rest, parent, root)
  {
    hide Linked, LinkedPath, Cells, PathCells, Distinct, DistinctPath;
    LinkedNonNull(m, w, e);
    LinkedNonNull(m, x, c);
    LinkedNonNull(m, y, c);
    LinkedNonNull(m, b, parent);
    LinkedPathNonNull(m, rest, parent, root);
    var touched := {parent, e, c, Ptr(x)};
    LinkedFrame(m, m2, touched, w, e);
    LinkedMoved(m, m2, touched, x, c, e);
    LinkedFrame(m, m2, touched, y, c);
    LinkedFrame(m, m2, touched, b, parent);
    LinkedPathFrame(m, m2, touched, rest, parent, root);
  }

  lemma DoubleApart(p: Addr, e: Addr, dir: Dir, l: Links, w: Tree<Addr>, c: Tree<Addr>, b: Tree<Addr>, rest: Path<Addr>)
    requires Apart(p, e, w, c, b, rest) && c.Node? && c.at != 0
    ensures Apart(p, c.at, Join(dir, w, l.Long(dir), l.key, e, l.Long(dir.Other()), c.Child(dir)), c.Child(dir.Other()), b, rest)
    ensures Apart(p, e, w, c.Child(dir), b, rest) && Apart(p, e, w, c.Child(dir.Other()), b, rest)
  {
    hide Cells, PathCells, Distinct, DistinctPath;
    OpenCells(c, dir);
    JoinCells(dir, w, l.Long(dir), l.key, e, l.Long(dir.Other()), c.Child(dir));
  }

  /** The inner child `c` of `e`, its subtrees and its addresses. */
  lemma DoubleInner(m: Memory, root: Addr, parent: Addr, e: Addr, dir: Dir,
                    w: Tree<Addr>, c: Tree<Addr>, b: Tree<Addr>, rest: Path<Addr>)
    requires HoistReady(m, root, parent, e, dir.Other(), w, c, b, rest) && c.Node?
    ensures c.at != 0 && c.at in m && parent in m && e in m && c.at != e && c.at != parent && parent != e
    ensures m[c.at] == Fields(e, dir, Ptr(c.Child(dir)), c.Long(dir), c.key, c.Long(dir.Other()), Ptr(c.Child(dir.Other())))
    ensures Linked(m, c.Child(dir), c.at) && Linked(m, c.Child(dir.Other()), c.at) && Cells(c.Child(dir)) !! Cells(c.Child(dir.Other()))
    ensures Ptr(c.Child(dir)) !in {parent, e, c.at} && (c.Child(dir).Node? ==> Ptr(c.Child(dir)) != 0 && Ptr(c.Child(dir)) in m)
    ensures c.at !in Cells(w) && c.at !in Cells(c.Child(dir)) && c.at !in Cells(c.Child(dir.Other())) && c.at !in Cells(b) && c.at !in PathCells(rest)
  {
    hide Linked, LinkedPath, Cells, PathCells, Distinct, DistinctPath;
    OpenLinked(m, c, e, dir);
    OpenCells(c, dir);
    LinkedNonNull(m, c, e);
    LinkedNonNull(m, c.Child(dir), c.at);
  }

  lemma DoubleLinks(m: Memory, m1: Memory, m2: Memory, root: Addr, parent: Addr, e: Addr, dir: Dir,
                    w: Tree<Addr>, c: Tree<Addr>, b: Tree<Addr>, rest: Path<Addr>)
    requires HoistReady(m, root, parent, e, dir.Other(), w, c, b, rest) && c.Node? && c.at in m
    requires Rotated(m, m1, e, c.at, dir) && Recolored(m1, m2, {parent, e, c.at})
    ensures e in m2 && parent in m2 && c.at in m2
    ensures Linked(m2, w, e) && Linked(m2, c.Child(dir), e) && Linked(m2, c.Child(dir.Other()), c.at)
    ensures Linked(m2, b, parent) && LinkedPath(m2, rest, parent, root)
  {
    hide Linked, LinkedPath, Cells, PathCells, Distinct, DistinctPath, Rotated, Recolored, Apart, Frame;
    DoubleInner(m, root, parent, e, dir, w, c, b, rest);
    DoubleFrame(m, m1, m2, parent, e, c.at, dir);
    DoubleApart(parent, e, dir, m[e], w, c, b, rest);
    DoubleParts(m, m2, root, parent, e, c.at, w, c.Child(dir), c.Child(dir.Other()), b, rest);
  }

  lemma DoubleMemory(m: Memory, m1: Memory, m2: Memory, root: Addr, parent: Addr, e: Addr, dir: Dir,
                     w: Tree<Addr>, c: Tree<Addr>, b: Tree<Addr>, rest: Path<Addr>)
    requires HoistReady(m, root, parent, e, dir.Other(), w, c, b, rest) && c.Node? && c.at in m
    requires Rotated(m, m1, e, c.at, dir) && Recolored(m1, m2, {parent, e, c.at})
    ensures c.at != 0 && e in m2 && parent in m2 && c.at in m2
    ensures Linked(m2, Join(dir, w, m2[e].Long(dir), m2[e].key, e, m2[e].Long(dir.Other()), c.Child(dir)), c.at)
    ensures Linked(m2, c.Child(dir.Other()), c.at) && Linked(m2, b, parent) && LinkedPath(m2, rest, parent, root)
    ensures m2[c.at].Link(dir) == e && m2[c.at].Link(dir.Other()) == Ptr(c.Child(dir.Other())) && m2[parent].Link(dir.Other()) == Ptr(b)
  {
    hide Linked, LinkedPath, Cells, PathCells, Distinct, DistinctPath, Rotated, Recolored, Frame, Join;
    assert e != 0;
    hide Apart;
    DoubleInner(m, root, parent, e, dir, w, c, b, rest);
    DoubleFrame(m, m1, m2, parent, e, c.at, dir);
    DoubleLinks(m, m1, m2, root, parent, e, dir, w, c, b, rest);
    JoinLinked(m2, dir, w, m2[e].Long(dir), m2[e].key, e, m2[e].Long(dir.Other()), c.Child(dir), c.at);
  }

  /** RB_ROTATE(e, c, dir) of the inner child `c` of `e` makes `c` ready to be hoisted above the parent of `e`. */
  lemma DoubleReady(m: Memory, m1: Memory, m2: Memory, root: Addr, parent: Addr, e: Addr, dir: Dir,
                    w: Tree<Addr>, c: Tree<Addr>, b: Tree<Addr>, rest: Path<Addr>)
    requires HoistReady(m, root, parent, e, dir.Other(), w, c, b, rest) && c.Node? && c.at in m
    requires Rotated(m, m1, e, c.at, dir) && Recolored(m1, m2, {parent, e, c.at})
    ensures e in m2
    ensures HoistReady(m2, root, parent, c.at, dir.Other(), Join(dir, w, m2[e].Long(dir), m2[e].key, e, m2[e].Long(dir.Other()), c.Child(dir)),
                       c.Child(dir.Other()), b, rest)
  {
    hide Linked, LinkedPath, Cells, PathCells, Distinct, DistinctPath, Apart, Rotated, Recolored;
    DoubleMemory(m, m1, m2, root, parent, e, dir, w, c, b, rest);
    DoubleApart(parent, e, dir, m2[e], w, c, b, rest);
  }
}
