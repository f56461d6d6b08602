/** RB_INSERT and RB_REMOVE on the rank-balanced tree, compared with the same operations on a sorted list. */
module WavlOps {
  import opened WavlTree

  // ---------- The reference: a list in strictly increasing key order ----------

  ghost predicate Sorted<P>(s: seq<(nat, P)>) {
    forall i, j :: 0 <= i < j < |s| ==> s[i].0 < s[j].0
  }

  ghost predicate AllBelow<P>(s: seq<(nat, P)>, key: nat) {
    forall i :: 0 <= i < |s| ==> s[i].0 < key
  }

  ghost predicate AllAbove<P>(s: seq<(nat, P)>, key: nat) {
    forall i :: 0 <= i < |s| ==> key < s[i].0
  }

  /** Adds an element at its place; an element that is already there stays. */
  function Put<P>(s: seq<(nat, P)>, key: nat, at: P): seq<(nat, P)> {
    if s == [] || key < s[0].0 then [(key, at)] + s
    else if key == s[0].0 then s
    else [s[0]] + Put(s[1..], key, at)
  }

  /** Takes the element with this key out, if there is one. */
  function Without<P>(s: seq<(nat, P)>, key: nat): seq<(nat, P)> {
    if s == [] then [] else if s[0].0 == key then s[1..] else [s[0]] + Without(s[1..], key)
  }

  lemma {:induction false} PutAfter<P>(a: seq<(nat, P)>, b: seq<(nat, P)>, key: nat, at: P)
    requires AllBelow(a, key)
    ensures Put(a + b, key, at) == a + Put(b, key, at)
  {
    if a == [] {
      assert a + b == b;
    } else {
      assert (a + b)[1..] == a[1..] + b;
      PutAfter(a[1..], b, key, at);
      assert [a[0]] + (a[1..] + Put(b, key, at)) == a + Put(b, key, at);
    }
  }

  lemma {:induction false} PutBefore<P>(b: seq<(nat, P)>, c: seq<(nat, P)>, key: nat, at: P)
    requires AllAbove(c, key)
    ensures Put(b + c, key, at) == Put(b, key, at) + c
  {
    if b == [] {
      assert b + c == c;
    } else {
      assert (b + c)[1..] == b[1..] + c;
      if key > b[0].0 {
        PutBefore(b[1..], c, key, at);
        assert [b[0]] + (Put(b[1..], key, at) + c) == Put(b, key, at) + c;
      }
    }
  }

  lemma PutBetween<P>(a: seq<(nat, P)>, b: seq<(nat, P)>, c: seq<(nat, P)>, key: nat, at: P)
    requires AllBelow(a, key) && AllAbove(c, key)
    ensures Put(a + b + c, key, at) == a + Put(b, key, at) + c
  {
    PutBefore(a + b, c, key, at);
    PutAfter(a, b, key, at);
  }

  lemma {:induction false} WithoutAfter<P>(a: seq<(nat, P)>, b: seq<(nat, P)>, key: nat)
    requires AllBelow(a, key)
    ensures Without(a + b, key) == a + Without(b, key)
  {
    if a == [] {
      assert a + b == b;
    } else {
      assert (a + b)[1..] == a[1..] + b;
      WithoutAfter(a[1..], b, key);
      assert [a[0]] + (a[1..] + Without(b, key)) == a + Without(b, key);
    }
  }

  lemma {:induction false} WithoutBefore<P>(b: seq<(nat, P)>, c: seq<(nat, P)>, key: nat)
    requires AllAbove(c, key)
    ensures Without(b + c, key) == Without(b, key) + c
    decreases |b| + |c|
  {
    if b != [] {
      assert (b + c)[1..] == b[1..] + c;
      if b[0].0 != key {
        WithoutBefore(b[1..], c, key);
        assert [b[0]] + (Without(b[1..], key) + c) == Without(b, key) + c;
      }
    } else {
      assert b + c == c;
      if c != [] {
        WithoutBefore([], c[1..], key);
        assert [] + c[1..] == c[1..];
      }
    }
  }

  lemma WithoutBetween<P>(a: seq<(nat, P)>, b: seq<(nat, P)>, c: seq<(nat, P)>, key: nat)
    requires AllBelow(a, key) && AllAbove(c, key)
    ensures Without(a + b + c, key) == a + Without(b, key) + c
  {
    WithoutBefore(a + b, c, key);
    WithoutAfter(a, b, key);
  }

  lemma ConsSorted<P>(e: (nat, P), s: seq<(nat, P)>)
    requires Sorted(s) && forall x :: x in s ==> e.0 < x.0
    ensures Sorted([e] + s)
  {
    assert forall i :: 0 <= i < |s| ==> s[i] in s;
  }

  lemma {:induction false} PutSorted<P>(s: seq<(nat, P)>, key: nat, at: P)
    requires Sorted(s)
    ensures Sorted(Put(s, key, at))
    ensures forall e :: e in Put(s, key, at) ==> e in s || e == (key, at)
  {
    if !(s == [] || key <= s[0].0) {
      PutSorted(s[1..], key, at);
      ConsSorted(s[0], Put(s[1..], key, at));
    }
  }

  lemma {:induction false} WithoutSorted<P>(s: seq<(nat, P)>, key: nat)
    requires Sorted(s)
    ensures Sorted(Without(s, key))
    ensures forall e :: e in Without(s, key) ==> e in s
  {
    if s != [] && s[0].0 != key {
      WithoutSorted(s[1..], key);
      ConsSorted(s[0], Without(s[1..], key));
    }
  }

  /** What the two list operations mean: the set of elements changes by exactly the element named. */
  lemma {:induction false} PutMeaning<P>(s: seq<(nat, P)>, key: nat, at: P)
    requires Sorted(s)
    ensures Sorted(Put(s, key, at))
    ensures (exists e :: e in s && e.0 == key) ==> Put(s, key, at) == s
    ensures (forall e :: e in s ==> e.0 != key) ==> multiset(Put(s, key, at)) == multiset(s) + multiset{(key, at)}
  {
    PutSorted(s, key, at);
    if s != [] && key > s[0].0 {
      PutMeaning(s[1..], key, at);
      assert s == [s[0]] + s[1..];
    } else if s != [] && key < s[0].0 {
      assert forall i :: 0 <= i < |s| ==> s[i].0 >= s[0].0;
    }
  }

  lemma {:induction false} WithoutMeaning<P>(s: seq<(nat, P)>, key: nat)
    requires Sorted(s)
    ensures forall e :: e in Without(s, key) <==> e in s && e.0 != key
  {
    if s != [] {
      assert s == [s[0]] + s[1..];
      if s[0].0 != key {
        WithoutMeaning(s[1..], key);
      } else {
        assert forall i :: 1 <= i < |s| ==> s[0].0 < s[i].0;
      }
    }
  }

  // ---------- RB_INSERT ----------

  /** The search loop of RB_INSERT below `path`, then RB_INSERT_FINISH. */
  function InsertAt<P>(path: Path<P>, t: Tree<P>, key: nat, at: P): Tree<P>
    requires Balanced(t) && PathBalanced(path, Rank(t))
    decreases t
  {
    if t.Nil? then InsertColor(path, Node(Nil, false, key, at, false, Nil))
    else if key < t.key then InsertAt(Down(path, t, Left), t.left, key, at)
    else if key > t.key then InsertAt(Down(path, t, Right), t.right, key, at)
    else Zip(path, t)
  }

  function Insert<P>(t: Tree<P>, key: nat, at: P): Tree<P>
    requires Balanced(t)
  {
    InsertAt(Top, t, key, at)
  }

  lemma SortedSplit<P>(l: seq<(nat, P)>, e: (nat, P), r: seq<(nat, P)>)
    requires Sorted(l + [e] + r)
    ensures Sorted(l) && Sorted(r) && AllBelow(l, e.0) && AllAbove(r, e.0)
  {
    var s := l + [e] + r;
    assert s[|l|] == e;
    forall i | 0 <= i < |l| ensures l[i] == s[i] {}
    forall i | 0 <= i < |r| ensures r[i] == s[|l| + 1 + i] {}
  }

  lemma SortedParts<P>(t: Tree<P>)
    requires t.Node? && Sorted(InOrder(t))
    ensures Sorted(InOrder(t.left)) && Sorted(InOrder(t.right))
    ensures AllBelow(InOrder(t.left), t.key) && AllAbove(InOrder(t.right), t.key)
  {
    SortedSplit(InOrder(t.left), (t.key, t.at), InOrder(t.right));
  }

  /** Going down towards a key keeps the elements before the hole below it and those after the hole above it. */
  lemma DownBounds<P>(path: Path<P>, t: Tree<P>, key: nat)
    requires t.Node? && Sorted(InOrder(t)) && key != t.key
    requires AllBelow(Before(path), key) && AllAbove(After(path), key)
    ensures var down := Down(path, t, if key < t.key then Left else Right);
      AllBelow(Before(down), key) && AllAbove(After(down), key)
  {
    SortedParts(t);
  }

  lemma {:induction false} InsertAtBalanced<P>(path: Path<P>, t: Tree<P>, key: nat, at: P)
    requires Balanced(t) && PathBalanced(path, Rank(t))
    ensures Balanced(InsertAt(path, t, key, at))
    decreases t
  {
    if t.Nil? {
      InsertColorBalanced(path, Node(Nil, false, key, at, false, Nil));
    } else if key < t.key {
      InsertAtBalanced(Down(path, t, Left), t.left, key, at);
    } else if key > t.key {
      InsertAtBalanced(Down(path, t, Right), t.right, key, at);
    } else {
      ZipBalanced(path, t);
    }
  }

  lemma {:induction false} InsertAtOrder<P>(path: Path<P>, t: Tree<P>, key: nat, at: P)
    requires Balanced(t) && PathBalanced(path, Rank(t)) && Sorted(InOrder(t))
    requires AllBelow(Before(path), key) && AllAbove(After(path), key)
    ensures InOrder(InsertAt(path, t, key, at)) == Put(InOrder(Zip(path, t)), key, at)
    decreases t
  {
    if t.Nil? {
      InsertLeafOrder(path, key, at);
    } else if key < t.key {
      SortedParts(t);
      DownBounds(path, t, key);
      InsertAtOrder(Down(path, t, Left), t.left, key, at);
    } else if key > t.key {
      SortedParts(t);
      DownBounds(path, t, key);
      InsertAtOrder(Down(path, t, Right), t.right, key, at);
    } else {
      SortedParts(t);
      PutBetween(InOrder(t.left), [(t.key, t.at)], InOrder(t.right), key, at);
      ZipInOrder(path, t);
      PutBetween(Before(path), InOrder(t), After(path), key, at);
    }
  }

  lemma LeafGrown<P>(path: Path<P>, key: nat, at: P)
    requires PathBalanced(path, 0)
    ensures Grown(path, Node(Nil, false, key, at, false, Nil))
  {
    var leaf := Node(Nil, false, key, at, false, Nil);
    assert Rank(leaf) == 1 && Balanced(leaf);
    hide PathBalanced;
  }

  lemma InsertLeafOrder<P>(path: Path<P>, key: nat, at: P)
    requires PathBalanced(path, 0)
    requires AllBelow(Before(path), key) && AllAbove(After(path), key)
    ensures InOrder(InsertAt(path, Nil, key, at)) == Put(InOrder(Zip(path, Nil)), key, at)
  {
    var leaf := Node(Nil, false, key, at, false, Nil);
    LeafGrown(path, key, at);
    calc {
      InOrder(InsertAt(path, Nil, key, at));
      { InsertColorOrder(path, leaf); }
      InOrder(Zip(path, leaf));
      { ZipInOrder(path, leaf); assert InOrder(leaf) == [(key, at)]; }
      Before(path) + [(key, at)] + After(path);
      { PutBetween(Before(path), [], After(path), key, at); assert Put<P>([], key, at) == [(key, at)]; }
      Put(Before(path) + [] + After(path), key, at);
      { ZipInOrder(path, Nil); }
      Put(InOrder(Zip(path, Nil)), key, at);
    }
  }

  /** Insertion keeps every weak-AVL rule and acts on the elements exactly as on a sorted list. */
  lemma InsertSound<P>(t: Tree<P>, key: nat, at: P)
    requires Balanced(t) && Sorted(InOrder(t))
    ensures Balanced(Insert(t, key, at))
    ensures InOrder(Insert(t, key, at)) == Put(InOrder(t), key, at)
    ensures Sorted(InOrder(Insert(t, key, at)))
  {
    InsertAtBalanced(Top, t, key, at);
    InsertAtOrder(Top, t, key, at);
    PutSorted(InOrder(t), key, at);
  }

  // ---------- RB_REMOVE ----------

  /** The leftmost subtree: the successor that takes the place of a node with two children. */
  function Min<P>(t: Tree<P>): (m: Tree<P>)
    requires t.Node?
    ensures m.Node? && m.left.Nil?
  {
    if t.left.Nil? then t else Min(t.left)
  }

  function MinPath<P>(path: Path<P>, t: Tree<P>): Path<P>
    requires t.Node?
    decreases t
  {
    if t.left.Nil? then path
    else MinPath(Down(path, t, Left), t.left)
  }

  lemma {:induction false} MinPathBalanced<P>(path: Path<P>, t: Tree<P>)
    requires t.Node? && Balanced(t) && PathBalanced(path, Rank(t))
    ensures Balanced(Min(t))
    ensures PathBalanced(MinPath(path, t), Rank(Min(t)))
    decreases t
  {
    if t.left.Node? {
      MinPathBalanced(Down(path, t, Left), t.left);
    }
  }

  lemma {:induction false} MinPathOrder<P>(path: Path<P>, t: Tree<P>)
    requires t.Node?
    ensures Before(MinPath(path, t)) == Before(path)
    ensures InOrder(t) + After(path) == InOrder(Min(t)) + After(MinPath(path, t))
    decreases t
  {
    if t.left.Node? {
      var step := Down(path, t, Left);
      MinPathOrder(step, t.left);
      Reassociate([], InOrder(t.left), [(t.key, t.at)], InOrder(t.right), After(path));
    }
  }

  /** The single child of a node is missing or is a leaf with two short edges. */
  lemma OnlyChild<P>(t: Tree<P>)
    requires t.Node? && Balanced(t) && (t.left.Nil? || t.right.Nil?)
    ensures var child := if t.right.Nil? then t.left else t.right;
      && Rank(t) == Rank(child) + 1
      && (child.Node? ==> child.left.Nil? && child.right.Nil? && !child.longLeft && !child.longRight)
  {
    if t.left.Node? {
      assert Rank(t.left) >= 1 && t.longRight && Rank(t.left) == 1;
      assert t.left.left.Nil? && t.left.right.Nil?;
    } else if t.right.Node? {
      assert Rank(t.right) >= 1 && t.longLeft && Rank(t.right) == 1;
      assert t.right.left.Nil? && t.right.right.Nil?;
    }
  }

  /** RB_REMOVE of the node `out` below `path`. */
  function RemoveAt<P>(path: Path<P>, out: Tree<P>): Tree<P>
    requires out.Node? && Balanced(out) && PathBalanced(path, Rank(out))
  {
    if out.left.Nil? || out.right.Nil? then
      OnlyChild(out);
      RemoveFix(path, if out.right.Nil? then out.left else out.right)
    else
      var succ := Min(out.right);
      var path' := Step(Right, out.longRight, succ.key, succ.at, out.longLeft, out.left, path);
      MinPathBalanced(path', out.right);
      OnlyChild(succ);
      RemoveFix(MinPath(path', out.right), succ.right)
  }

  lemma RemoveSuccessorOrder<P>(path: Path<P>, out: Tree<P>)
    requires out.Node? && out.left.Node? && out.right.Node?
    ensures var succ := Min(out.right);
      var hole := MinPath(Step(Right, out.longRight, succ.key, succ.at, out.longLeft, out.left, path), out.right);
      Before(hole) + InOrder(succ.right) + After(hole)
        == Before(path) + (InOrder(out.left) + InOrder(out.right)) + After(path)
  {
    var succ := Min(out.right);
    var path' := Step(Right, out.longRight, succ.key, succ.at, out.longLeft, out.left, path);
    var hole := MinPath(path', out.right);
    MinPathOrder(path', out.right);
    var b, l, s, r := Before(path), InOrder(out.left), [(succ.key, succ.at)], InOrder(succ.right);
    calc {
      Before(hole) + r + After(hole);
      (b + (l + s)) + r + After(hole);
      { Reassociate(b, l, s, r, After(hole)); }
      b + l + (s + r + After(hole));
      { assert InOrder(succ) == s + r; }
      b + l + (InOrder(succ) + After(hole));
      b + l + (InOrder(out.right) + After(path));
      b + (l + InOrder(out.right)) + After(path);
    }
  }

  /** Where RB_REMOVE leaves the hole it rebalances from. */
  lemma RemoveAtShape<P>(path: Path<P>, t: Tree<P>)
    requires t.Node? && Balanced(t) && PathBalanced(path, Rank(t))
    ensures t.left.Nil? || t.right.Nil? ==>
      var child := if t.right.Nil? then t.left else t.right;
      Shrunk(path, child) && RemoveAt(path, t) == RemoveFix(path, child)
    ensures t.left.Node? && t.right.Node? ==>
      var succ := Min(t.right);
      var hole := MinPath(Step(Right, t.longRight, succ.key, succ.at, t.longLeft, t.left, path), t.right);
      Shrunk(hole, succ.right) && RemoveAt(path, t) == RemoveFix(hole, succ.right)
  {
    if t.left.Nil? || t.right.Nil? {
      OnlyChild(t);
    } else {
      var succ := Min(t.right);
      MinPathBalanced(Step(Right, t.longRight, succ.key, succ.at, t.longLeft, t.left, path), t.right);
      OnlyChild(succ);
    }
  }

  lemma OnlyChildOrder<P>(out: Tree<P>)
    requires out.Node? && (out.left.Nil? || out.right.Nil?)
    ensures InOrder(if out.right.Nil? then out.left else out.right) == InOrder(out.left) + InOrder(out.right)
  {
  }

  lemma RemoveAtSound<P>(path: Path<P>, out: Tree<P>)
    requires out.Node? && Balanced(out) && PathBalanced(path, Rank(out))
    ensures Balanced(RemoveAt(path, out))
    ensures InOrder(RemoveAt(path, out)) == Before(path) + (InOrder(out.left) + InOrder(out.right)) + After(path)
  {
    hide *;
    RemoveAtShape(path, out);
    if out.left.Nil? || out.right.Nil? {
      var child := if out.right.Nil? then out.left else out.right;
      OnlyChildOrder(out);
      RemoveFixSound(path, child);
      ZipInOrder(path, child);
    } else {
      var succ := Min(out.right);
      var hole := MinPath(Step(Right, out.longRight, succ.key, succ.at, out.longLeft, out.left, path), out.right);
      RemoveFixSound(hole, succ.right);
      ZipInOrder(hole, succ.right);
      RemoveSuccessorOrder(path, out);
    }
  }

  /** RB_FIND followed by RB_REMOVE, as `wAVLTree::Remove` calls them. */
  function RemoveKey<P>(path: Path<P>, t: Tree<P>, key: nat): Tree<P>
    requires Balanced(t) && PathBalanced(path, Rank(t))
    decreases t
  {
    if t.Nil? then Zip(path, t)
    else if key < t.key then RemoveKey(Down(path, t, Left), t.left, key)
    else if key > t.key then RemoveKey(Down(path, t, Right), t.right, key)
    else RemoveAt(path, t)
  }

  function Remove<P>(t: Tree<P>, key: nat): Tree<P>
    requires Balanced(t)
  {
    RemoveKey(Top, t, key)
  }

  lemma {:induction false} RemoveKeyBalanced<P>(path: Path<P>, t: Tree<P>, key: nat)
    requires Balanced(t) && PathBalanced(path, Rank(t))
    ensures Balanced(RemoveKey(path, t, key))
    decreases t
  {
    if t.Nil? {
      ZipBalanced(path, t);
    } else if key < t.key {
      RemoveKeyBalanced(Down(path, t, Left), t.left, key);
    } else if key > t.key {
      RemoveKeyBalanced(Down(path, t, Right), t.right, key);
    } else {
      RemoveAtSound(path, t);
    }
  }

  lemma RemoveFoundOrder<P>(path: Path<P>, t: Tree<P>)
    requires t.Node? && Balanced(t) && PathBalanced(path, Rank(t)) && Sorted(InOrder(t))
    requires AllBelow(Before(path), t.key) && AllAbove(After(path), t.key)
    ensures InOrder(RemoveAt(path, t)) == Without(InOrder(Zip(path, t)), t.key)
  {
    SortedParts(t);
    var l, r := InOrder(t.left), InOrder(t.right);
    calc {
      Without(InOrder(Zip(path, t)), t.key);
      { ZipInOrder(path, t); }
      Without(Before(path) + InOrder(t) + After(path), t.key);
      { WithoutBetween(Before(path), InOrder(t), After(path), t.key); }
      Before(path) + Without(l + [(t.key, t.at)] + r, t.key) + After(path);
      { WithoutBetween(l, [(t.key, t.at)], r, t.key); assert l + [] + r == l + r; }
      Before(path) + (l + r) + After(path);
      { RemoveAtSound(path, t); }
      InOrder(RemoveAt(path, t));
    }
  }

  lemma {:induction false} RemoveKeyOrder<P>(path: Path<P>, t: Tree<P>, key: nat)
    requires Balanced(t) && PathBalanced(path, Rank(t)) && Sorted(InOrder(t))
    requires AllBelow(Before(path), key) && AllAbove(After(path), key)
    ensures InOrder(RemoveKey(path, t, key)) == Without(InOrder(Zip(path, t)), key)
    decreases t
  {
    if t.Nil? {
      ZipInOrder(path, t);
      WithoutBetween(Before(path), [], After(path), key);
    } else if key < t.key {
      SortedParts(t);
      DownBounds(path, t, key);
      RemoveKeyOrder(Down(path, t, Left), t.left, key);
    } else if key > t.key {
      SortedParts(t);
      DownBounds(path, t, key);
      RemoveKeyOrder(Down(path, t, Right), t.right, key);
    } else {
      RemoveFoundOrder(path, t);
    }
  }

  lemma RemoveSound<P>(t: Tree<P>, key: nat)
    requires Balanced(t) && Sorted(InOrder(t))
    ensures Balanced(Remove(t, key))
    ensures InOrder(Remove(t, key)) == Without(InOrder(t), key)
    ensures Sorted(InOrder(Remove(t, key)))
  {
    RemoveKeyBalanced(Top, t, key);
    RemoveKeyOrder(Top, t, key);
    WithoutSorted(InOrder(t), key);
  }

  // ---------- Height ----------

  function Height<P>(t: Tree<P>): nat {
    if t.Nil? then 0
    else if Height(t.left) >= Height(t.right) then 1 + Height(t.left) else 1 + Height(t.right)
  }

  function Pow2(n: nat): nat { if n == 0 then 1 else 2 * Pow2(n - 1) }

  lemma {:induction false} Pow2Monotone(a: nat, b: nat)
    requires a <= b
    ensures Pow2(a) <= Pow2(b)
    decreases b
  {
    if a < b { Pow2Monotone(a, b - 1); }
  }

  lemma {:induction false} HeightWithinRank<P>(t: Tree<P>)
    requires Balanced(t)
    ensures Height(t) <= Rank(t)
  {
    if t.Node? {
      HeightWithinRank(t.left);
      HeightWithinRank(t.right);
    }
  }

  lemma SquareOfSum(a: nat, b: nat, p: nat)
    requires p <= a * a && p <= b * b
    ensures 4 * p <= (a + b) * (a + b)
  {
    if a <= b {
      assert a * a <= a * b;
    } else {
      assert b * b <= a * b;
    }
  }

  lemma {:induction false} RankWithinSize<P>(t: Tree<P>)
    requires Balanced(t)
    ensures Pow2(Rank(t)) <= (|InOrder(t)| + 1) * (|InOrder(t)| + 1)
    decreases t
  {
    if t.Node? {
      var a, b, r := |InOrder(t.left)| + 1, |InOrder(t.right)| + 1, Rank(t);
      assert |InOrder(t)| + 1 == a + b;
      if r >= 2 {
        RankWithinSize(t.left);
        RankWithinSize(t.right);
        Pow2Monotone(r - 2, Rank(t.left));
        Pow2Monotone(r - 2, Rank(t.right));
        SquareOfSum(a, b, Pow2(r - 2));
        assert Pow2(r) == 2 * Pow2(r - 1) == 4 * Pow2(r - 2);
      } else {
        assert Pow2(1) == 2;
        assert (a + b) * (a + b) >= 4;
      }
    }
  }

  // ---------- Whole runs ----------

  datatype Op<P> = InsertOp(key: nat, at: P) | RemoveOp(key: nat)

  function RunTree<P>(ops: seq<Op<P>>): (t: Tree<P>)
    ensures Balanced(t) && Sorted(InOrder(t)) && InOrder(t) == RunList(ops)
  {
    if ops == [] then Nil
    else
      var t := RunTree(ops[..|ops| - 1]);
      match ops[|ops| - 1]
      case InsertOp(key, at) => InsertSound(t, key, at); Insert(t, key, at)
      case RemoveOp(key) => RemoveSound(t, key); Remove(t, key)
  }

  function RunList<P>(ops: seq<Op<P>>): seq<(nat, P)> {
    if ops == [] then []
    else
      var s := RunList(ops[..|ops| - 1]);
      match ops[|ops| - 1]
      case InsertOp(key, at) => Put(s, key, at)
      case RemoveOp(key) => Without(s, key)
  }

  /** After any run of insertions and removals from the empty tree the height h satisfies 2^h <= (n + 1)^2,
      so no search makes more than 2 lg (n + 1) steps. */
  lemma RunHeight<P>(ops: seq<Op<P>>)
    ensures var n := |RunList(ops)|; Pow2(Height(RunTree(ops))) <= (n + 1) * (n + 1)
  {
    var t := RunTree(ops);
    HeightWithinRank(t);
    RankWithinSize(t);
    Pow2Monotone(Height(t), Rank(t));
  }
}
