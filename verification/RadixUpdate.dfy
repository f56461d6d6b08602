/** What writing one entry, adding a table and removing an empty one do to the tree and to every translation. */
module RadixUpdate {
  import opened Basics
  import opened PageEntries
  import opened RadixTree

  ghost function Put(s: Space, q: Path, i: Index, x: Entry): Space {
    if !Has(s, q) then s else Space(s.mem[s.at[q] := Store(s.mem[s.at[q]], i, x)], s.at)
  }

  lemma SlotPut(s: Space, q: Path, i: Index, x: Entry, r: Path, j: Index)
    requires Injective(s.at) && Has(s, q)
    ensures Has(Put(s, q, i, x), r) <==> Has(s, r)
    ensures Slot(Put(s, q, i, x), r, j) == if r == q && j == i then x else Slot(s, r, j)
  {
  }

  /** The entry `x` may replace the one at (q, i): tables stay tables, at the same place, with no fewer rights. */
  ghost predicate Replaces(s: Space, q: Path, i: Index, x: Entry) {
    var e, d := Slot(s, q, i), Depth(q) + 1;
    && q in s.at && i < 512 && (x == ZERO || Present(x)) && (IsTable(e, d) <==> IsTable(x, d))
    && (IsTable(x, d) ==> Target(x) == Target(e) && !NoExecute(x) && Within(e, x))
    && (Present(x) && q.Sub? ==> Within(x, Slot(s, q.up, q.index)))
  }

  lemma PutLinked(s: Space, root: Frame, open: Path, q: Path, i: Index, x: Entry, r: Path)
    requires Tree(s, root, open) && Replaces(s, q, i, x) && Has(s, q) && r in s.at
    ensures Linked(Put(s, q, i, x), r)
  {
    assert Linked(s, r);
    hide Tree, Slot, Present, PageSize, Write, User, NoExecute, Aligned, Put;
    SlotPut(s, q, i, x, r, 0);
    if r.Sub? {
      SlotPut(s, q, i, x, r.up, r.index);
    }
  }

  lemma PutEntry(s: Space, root: Frame, open: Path, q: Path, i: Index, x: Entry, r: Path, j: Index)
    requires Tree(s, root, open) && Replaces(s, q, i, x) && Has(s, q) && r in s.at && j < 512
    ensures EntryOk(Put(s, q, i, x), r, j)
  {
    assert EntryOk(s, r, j) && Linked(s, r) && Linked(s, q);
    hide Tree, Slot, Present, PageSize, Write, User, NoExecute, Aligned;
    SlotPut(s, q, i, x, r, j);
    if r.Sub? {
      SlotPut(s, q, i, x, r.up, r.index);
    }
  }

  lemma PutNonEmpty(s: Space, root: Frame, open: Path, q: Path, i: Index, x: Entry, r: Path)
    requires Tree(s, root, open) && i < 512 && Has(s, q) && NonEmpty(s, r) && (Present(x) || r != q || !Present(Slot(s, q, i)))
    ensures NonEmpty(Put(s, q, i, x), r)
  {
    var j: Index :| j < 512 && Present(Slot(s, r, j));
    hide Tree, Slot, Present;
    SlotPut(s, q, i, x, r, j);
    assert Present(Slot(Put(s, q, i, x), r, j));
  }

  /** Writing an entry that may replace the old one keeps the tree. */
  lemma PutTree(s: Space, root: Frame, open: Path, open': Path, q: Path, i: Index, x: Entry)
    requires Tree(s, root, open) && Has(s, q) && Replaces(s, q, i, x)
    requires open' == open || (open == q && Present(x))
    requires Present(x) || !Present(Slot(s, q, i)) || open' == q
    ensures Tree(Put(s, q, i, x), root, open')
  {
    var s' := Put(s, q, i, x);
    forall r | r in s'.at ensures Linked(s', r) {
      PutLinked(s, root, open, q, i, x, r);
    }
    forall r, j: Index | r in s'.at && j < 512 ensures EntryOk(s', r, j) {
      PutEntry(s, root, open, q, i, x, r, j);
    }
    forall r | r in s'.at && r.Sub? && r != open' ensures NonEmpty(s', r) {
      if r == open {
        SlotPut(s, q, i, x, q, i);
        assert Present(Slot(s', q, i));
      } else {
        PutNonEmpty(s, root, open, q, i, x, r);
      }
    }
  }

  /** Only addresses that go through the entry can notice. */
  lemma PutLeaf(s: Space, q: Path, i: Index, x: Entry, va: nat, d: nat)
    requires Injective(s.at) && Has(s, q) && 1 <= d <= 4 && !(Prefix(va, d - 1) == q && IndexOf(va, d) == i)
    ensures LeafFor(Put(s, q, i, x), va, d) <==> LeafFor(s, va, d)
    ensures Slot(Put(s, q, i, x), Prefix(va, d - 1), IndexOf(va, d)) == Slot(s, Prefix(va, d - 1), IndexOf(va, d))
  {
    hide Injective, Slot, Has, Put, IndexOf;
    SlotPut(s, q, i, x, Prefix(va, d - 1), IndexOf(va, d));
  }

  lemma WeakenTree(s: Space, root: Frame, open: Path)
    requires Tree(s, root, Root)
    ensures Tree(s, root, open)
  {
  }

  // ---------- A new table ----------

  ghost function Grow(s: Space, q: Path, i: Index, frame: Frame, x: Entry): Space {
    if !Has(s, q) then s else Space(s.mem[frame := map[]][s.at[q] := Store(s.mem[s.at[q]], i, x)], s.at[Sub(q, i) := frame])
  }

  lemma SlotGrow(s: Space, q: Path, i: Index, frame: Frame, x: Entry, r: Path, j: Index)
    requires Injective(s.at) && Has(s, q) && Sub(q, i) !in s.at && frame !in s.at.Values
    ensures r in s.at && Has(s, r) ==> Has(Grow(s, q, i, frame, x), r)
    ensures Has(Grow(s, q, i, frame, x), Sub(q, i))
    ensures r in s.at ==> Slot(Grow(s, q, i, frame, x), r, j) == if r == q && j == i then x else Slot(s, r, j)
    ensures Slot(Grow(s, q, i, frame, x), Sub(q, i), j) == ZERO
  {
    assert s.at[q] in s.at.Values;
    if r in s.at {
      assert s.at[r] in s.at.Values;
    }
  }

  /** The table at (q, i) is missing, `frame` is free, and `x` points to it with rights the path grants. */
  ghost predicate Extends(s: Space, q: Path, i: Index, frame: Frame, x: Entry) {
    && q in s.at && i < 512 && Depth(q) < 3 && Slot(s, q, i) == ZERO && frame !in s.at.Values && Aligned(frame)
    && IsTable(x, Depth(q) + 1) && Target(x) == frame && !NoExecute(x)
    && (q.Sub? ==> Within(x, Slot(s, q.up, q.index)))
  }

  lemma GrowNew(s: Space, root: Frame, q: Path, i: Index, frame: Frame, x: Entry)
    requires Tree(s, root, q) && Has(s, q) && Extends(s, q, i, frame, x)
    ensures Sub(q, i) !in s.at
  {
    assert !Present(ZERO);
    assert Sub(q, i) in s.at ==> Linked(s, Sub(q, i));
  }

  lemma GrowLinked(s: Space, root: Frame, q: Path, i: Index, frame: Frame, x: Entry, r: Path)
    requires Tree(s, root, q) && Has(s, q) && Extends(s, q, i, frame, x) && Sub(q, i) !in s.at && (r in s.at || r == Sub(q, i))
    ensures Linked(Grow(s, q, i, frame, x), r)
  {
    assert r in s.at ==> Linked(s, r);
    hide Tree, Slot, Present, PageSize, Write, User, NoExecute, Aligned;
    SlotGrow(s, q, i, frame, x, r, 0);
    SlotGrow(s, q, i, frame, x, q, i);
    if r.Sub? && r in s.at {
      SlotGrow(s, q, i, frame, x, r.up, r.index);
    }
  }

  lemma GrowEntry(s: Space, root: Frame, q: Path, i: Index, frame: Frame, x: Entry, r: Path, j: Index)
    requires Tree(s, root, q) && Has(s, q) && Extends(s, q, i, frame, x) && Sub(q, i) !in s.at && (r in s.at || r == Sub(q, i)) && j < 512
    ensures EntryOk(Grow(s, q, i, frame, x), r, j)
  {
    assert r in s.at ==> EntryOk(s, r, j) && Linked(s, r);
    assert !Present(ZERO) && Linked(s, q);
    hide Tree, Slot, Present, PageSize, Write, User, NoExecute, Aligned;
    SlotGrow(s, q, i, frame, x, r, j);
    if r.Sub? && r in s.at {
      SlotGrow(s, q, i, frame, x, r.up, r.index);
    }
  }

  lemma GrowNonEmpty(s: Space, root: Frame, q: Path, i: Index, frame: Frame, x: Entry, r: Path)
    requires Tree(s, root, q) && Has(s, q) && Extends(s, q, i, frame, x) && Sub(q, i) !in s.at && r in s.at && r.Sub?
    ensures NonEmpty(Grow(s, q, i, frame, x), r)
  {
    if r == q {
      SlotGrow(s, q, i, frame, x, q, i);
      assert Present(Slot(Grow(s, q, i, frame, x), q, i));
    } else {
      var j: Index :| j < 512 && Present(Slot(s, r, j));
      SlotGrow(s, q, i, frame, x, r, j);
      assert Present(Slot(Grow(s, q, i, frame, x), r, j));
    }
  }

  /** Hanging an empty table into the tree leaves one table open: the new one. */
  lemma GrowTree(s: Space, root: Frame, q: Path, i: Index, frame: Frame, x: Entry)
    requires Tree(s, root, q) && Has(s, q) && Extends(s, q, i, frame, x)
    ensures Sub(q, i) !in s.at && Tree(Grow(s, q, i, frame, x), root, Sub(q, i))
  {
    GrowNew(s, root, q, i, frame, x);
    var s' := Grow(s, q, i, frame, x);
    assert Injective(s'.at) by {
      assert forall r :: r in s.at ==> s.at[r] in s.at.Values;
    }
    forall r | r in s'.at ensures Linked(s', r) {
      GrowLinked(s, root, q, i, frame, x, r);
    }
    forall r, j: Index | r in s'.at && j < 512 ensures EntryOk(s', r, j) {
      GrowEntry(s, root, q, i, frame, x, r, j);
    }
    forall r | r in s'.at && r.Sub? && r != Sub(q, i) ensures NonEmpty(s', r) {
      GrowNonEmpty(s, root, q, i, frame, x, r);
    }
  }

  // ---------- Removing an empty table ----------

  ghost function Prune(s: Space, p: Path, i: Index): Space {
    if !Has(s, p) then s else Space(s.mem[s.at[p] := Store(s.mem[s.at[p]], i, ZERO)], s.at - {Sub(p, i)})
  }

  lemma SlotPrune(s: Space, p: Path, i: Index, r: Path, j: Index)
    requires Injective(s.at) && Has(s, p) && r != Sub(p, i)
    ensures Has(Prune(s, p, i), r) <==> Has(s, r)
    ensures Slot(Prune(s, p, i), r, j) == if r == p && j == i then ZERO else Slot(s, r, j)
  {
  }

  lemma PruneAt(s: Space, p: Path, i: Index)
    requires Has(s, p)
    ensures Prune(s, p, i).at == s.at - {Sub(p, i)}
  {
  }

  /** An empty table has no tables under it. */
  lemma EmptyChildless(s: Space, root: Frame, q: Path, r: Path)
    requires Tree(s, root, q) && q in s.at && !NonEmpty(s, q) && r in s.at && r.Sub?
    ensures r.up != q
  {
    assert Linked(s, r);
  }

  lemma PruneLinked(s: Space, root: Frame, p: Path, i: Index, r: Path)
    requires Tree(s, root, Sub(p, i)) && Sub(p, i) in s.at && Has(s, p) && !NonEmpty(s, Sub(p, i)) && r in s.at && r != Sub(p, i)
    ensures Linked(Prune(s, p, i), r)
  {
    assert Linked(s, r);
    if r.Sub? {
      EmptyChildless(s, root, Sub(p, i), r);
    }
    hide Tree, Slot, Present, PageSize, Write, User, NoExecute, Aligned, Prune, NonEmpty;
    SlotPrune(s, p, i, r, 0);
    if r.Sub? {
      SlotPrune(s, p, i, r.up, r.index);
    }
  }

  lemma PruneEntry(s: Space, root: Frame, p: Path, i: Index, r: Path, j: Index)
    requires Tree(s, root, Sub(p, i)) && Sub(p, i) in s.at && Has(s, p) && !NonEmpty(s, Sub(p, i)) && r in s.at && r != Sub(p, i) && j < 512
    ensures EntryOk(Prune(s, p, i), r, j)
  {
    assert EntryOk(s, r, j) && !Present(ZERO);
    hide Tree, Slot, Present, IsTable, Within, NonEmpty, Prune, Depth;
    SlotPrune(s, p, i, r, j);
    PruneAt(s, p, i);
    TablePresent(ZERO, Depth(r) + 1);
    if r.Sub? {
      EmptyChildless(s, root, Sub(p, i), r);
      PruneAbove(s, root, p, i, r);
    }
  }

  lemma PruneAbove(s: Space, root: Frame, p: Path, i: Index, r: Path)
    requires Tree(s, root, Sub(p, i)) && Has(s, p) && r in s.at && r.Sub? && r != Sub(p, i) && r.up != Sub(p, i)
    ensures Slot(Prune(s, p, i), r.up, r.index) == Slot(s, r.up, r.index)
  {
    hide Slot, Prune;
    SlotPrune(s, p, i, r.up, r.index);
  }

  /** Taking an empty table out leaves one table open: its parent. */
  lemma PruneTree(s: Space, root: Frame, p: Path, i: Index)
    requires Tree(s, root, Sub(p, i)) && Sub(p, i) in s.at && Has(s, p) && !NonEmpty(s, Sub(p, i))
    ensures Tree(Prune(s, p, i), root, p)
  {
    var s' := Prune(s, p, i);
    forall r | r in s'.at ensures Linked(s', r) {
      PruneLinked(s, root, p, i, r);
    }
    forall r, j: Index | r in s'.at && j < 512 ensures EntryOk(s', r, j) {
      PruneEntry(s, root, p, i, r, j);
    }
    forall r | r in s'.at && r.Sub? && r != p ensures NonEmpty(s', r) {
      var j: Index :| j < 512 && Present(Slot(s, r, j));
      SlotPrune(s, p, i, r, j);
      assert Present(Slot(s', r, j));
    }
  }

  // ---------- What the translations notice ----------

  /** The same leaves, for every address. */
  ghost predicate SameLeaves(s: Space, s': Space) {
    forall va: nat, d: nat :: 1 <= d <= 4 ==>
      && (LeafFor(s, va, d) <==> LeafFor(s', va, d))
      && (LeafFor(s, va, d) ==> Slot(s, Prefix(va, d - 1), IndexOf(va, d)) == Slot(s', Prefix(va, d - 1), IndexOf(va, d)))
  }

  lemma SameLeavesTranslate(s: Space, s': Space, root: Frame, open: Path, open': Path)
    requires Tree(s, root, open) && Tree(s', root, open') && SameLeaves(s, s')
    ensures forall va: nat :: Translate(s'.mem, root, va) == Translate(s.mem, root, va)
  {
    forall va: nat ensures Translate(s'.mem, root, va) == Translate(s.mem, root, va) {
      hide Tree, LeafFor, Slot, Translate;
      SameTranslation(s, s', root, open, open', va);
    }
  }

  lemma WidenLeaves(s: Space, q: Path, i: Index, x: Entry)
    requires Injective(s.at) && Has(s, q) && IsTable(Slot(s, q, i), Depth(q) + 1) && IsTable(x, Depth(q) + 1)
    ensures SameLeaves(s, Put(s, q, i, x))
  {
    var s' := Put(s, q, i, x);
    forall va: nat, d: nat | 1 <= d <= 4
      ensures (LeafFor(s, va, d) <==> LeafFor(s', va, d))
        && (LeafFor(s, va, d) ==> Slot(s, Prefix(va, d - 1), IndexOf(va, d)) == Slot(s', Prefix(va, d - 1), IndexOf(va, d)))
    {
      if Prefix(va, d - 1) == q && IndexOf(va, d) == i {
        SlotPut(s, q, i, x, q, i);
      } else {
        PutLeaf(s, q, i, x, va, d);
      }
    }
  }

  lemma GrowLeaf(s: Space, root: Frame, q: Path, i: Index, frame: Frame, x: Entry, va: nat, d: nat)
    requires Tree(s, root, q) && Has(s, q) && Extends(s, q, i, frame, x) && Sub(q, i) !in s.at && 1 <= d <= 4
    ensures var s' := Grow(s, q, i, frame, x);
      && (LeafFor(s, va, d) <==> LeafFor(s', va, d))
      && (LeafFor(s, va, d) ==> Slot(s, Prefix(va, d - 1), IndexOf(va, d)) == Slot(s', Prefix(va, d - 1), IndexOf(va, d)))
  {
    var r, j := Prefix(va, d - 1), IndexOf(va, d);
    assert !Present(ZERO);
    assert r in s.at ==> Linked(s, r);
    hide Tree, Slot, Present, PageSize, Write, User, NoExecute, Aligned, Prefix, IndexOf;
    SlotGrow(s, q, i, frame, x, r, j);
  }

  lemma GrowLeaves(s: Space, root: Frame, q: Path, i: Index, frame: Frame, x: Entry)
    requires Tree(s, root, q) && Has(s, q) && Extends(s, q, i, frame, x) && Sub(q, i) !in s.at
    ensures SameLeaves(s, Grow(s, q, i, frame, x))
  {
    forall va: nat, d: nat | 1 <= d <= 4
      ensures var s' := Grow(s, q, i, frame, x);
        && (LeafFor(s, va, d) <==> LeafFor(s', va, d))
        && (LeafFor(s, va, d) ==> Slot(s, Prefix(va, d - 1), IndexOf(va, d)) == Slot(s', Prefix(va, d - 1), IndexOf(va, d)))
    {
      hide Tree, Slot, Extends, Grow, LeafFor;
      GrowLeaf(s, root, q, i, frame, x, va, d);
    }
  }

  lemma PruneLeaf(s: Space, root: Frame, p: Path, i: Index, va: nat, d: nat)
    requires Tree(s, root, Sub(p, i)) && Sub(p, i) in s.at && Has(s, p) && !NonEmpty(s, Sub(p, i)) && 1 <= d <= 4
    ensures var s' := Prune(s, p, i);
      && (LeafFor(s, va, d) <==> LeafFor(s', va, d))
      && (LeafFor(s, va, d) ==> Slot(s, Prefix(va, d - 1), IndexOf(va, d)) == Slot(s', Prefix(va, d - 1), IndexOf(va, d)))
  {
    var r, j := Prefix(va, d - 1), IndexOf(va, d);
    assert !Present(ZERO) && Linked(s, Sub(p, i));
    PruneAt(s, p, i);
    hide Tree, Slot, Present, PageSize, Write, User, NoExecute, Aligned, Prefix, IndexOf, Prune;
    if r == Sub(p, i) {
      assert !Present(Slot(s, r, j));
    } else {
      SlotPrune(s, p, i, r, j);
    }
  }

  lemma PruneLeaves(s: Space, root: Frame, p: Path, i: Index)
    requires Tree(s, root, Sub(p, i)) && Sub(p, i) in s.at && Has(s, p) && !NonEmpty(s, Sub(p, i))
    ensures SameLeaves(s, Prune(s, p, i))
  {
    forall va: nat, d: nat | 1 <= d <= 4
      ensures var s' := Prune(s, p, i);
        && (LeafFor(s, va, d) <==> LeafFor(s', va, d))
        && (LeafFor(s, va, d) ==> Slot(s, Prefix(va, d - 1), IndexOf(va, d)) == Slot(s', Prefix(va, d - 1), IndexOf(va, d)))
    {
      hide Tree, Slot, NonEmpty, Prune, LeafFor;
      PruneLeaf(s, root, p, i, va, d);
    }
  }

  /** Writing an entry that is not a table over one that is not: the addresses below it translate to it, or to nothing. */
  lemma LeafTranslate(s: Space, root: Frame, open: Path, open': Path, va: nat, d: nat, x: Entry, u: nat)
    requires 1 <= d <= 4 && Tree(s, root, open) && Has(s, Prefix(va, d - 1))
    requires Tree(Put(s, Prefix(va, d - 1), IndexOf(va, d), x), root, open')
    requires !IsTable(Slot(s, Prefix(va, d - 1), IndexOf(va, d)), d) && !IsTable(x, d)
    ensures Translate(Put(s, Prefix(va, d - 1), IndexOf(va, d), x).mem, root, u)
         == if Prefix(u, d) != Prefix(va, d) then Translate(s.mem, root, u) else if Present(x) then Some((x, d)) else None
  {
    var q, i := Prefix(va, d - 1), IndexOf(va, d);
    var s' := Put(s, q, i, x);
    SlotPut(s, q, i, x, q, i);
    SlotPut(s, q, i, x, q, i);
    if Prefix(u, d) == Prefix(va, d) {
      hide Tree, Slot, Put, Present, IndexOf;
      if Present(x) {
        WalkLeafRoot(s', root, open', u, d);
      } else {
        WalkStopped(s', root, open', u, d);
      }
    } else {
      forall c: nat | 1 <= c <= 4 ensures !(Prefix(u, c - 1) == q && IndexOf(u, c) == i) {
        assert Prefix(u, c) == Sub(Prefix(u, c - 1), IndexOf(u, c));
      }
      hide Tree, Slot, Put, Present, IndexOf, Prefix;
      forall c: nat | 1 <= c <= 4
        ensures (LeafFor(s, u, c) <==> LeafFor(s', u, c))
          && Slot(s, Prefix(u, c - 1), IndexOf(u, c)) == Slot(s', Prefix(u, c - 1), IndexOf(u, c))
      {
        PutLeaf(s, q, i, x, u, c);
      }
      SameTranslation(s, s', root, open, open', u);
    }
  }

  lemma WalkLeafRoot(s: Space, root: Frame, open: Path, va: nat, d: nat)
    requires Tree(s, root, open) && 1 <= d <= 4 && LeafFor(s, va, d)
    ensures Translate(s.mem, root, va) == Some((Slot(s, Prefix(va, d - 1), IndexOf(va, d)), d))
  {
    assert Linked(s, Root);
    hide LeafFor, Walk;
    WalkLeaf(s, root, open, va, 0, d);
  }

  /** No leaf lies on a path that reaches an entry that is not present. */
  lemma StoppedNoLeaf(s: Space, root: Frame, open: Path, va: nat, d: nat, c: nat)
    requires Tree(s, root, open) && 1 <= d <= 4 && 1 <= c <= 4
    requires Has(s, Prefix(va, d - 1)) && !Present(Slot(s, Prefix(va, d - 1), IndexOf(va, d)))
    ensures !LeafFor(s, va, c)
  {
    hide Tree, Slot, Prefix, Present, IsTable, IndexOf;
    if c < d {
      Chain(s, root, open, va, c - 1, d - 1);
    } else if d < c && Has(s, Prefix(va, c - 1)) {
      Chain(s, root, open, va, d - 1, c - 1);
      TablePresent(Slot(s, Prefix(va, d - 1), IndexOf(va, d)), d);
    }
  }

  /** An address whose walk reaches such an entry has no translation. */
  lemma WalkStopped(s: Space, root: Frame, open: Path, va: nat, d: nat)
    requires Tree(s, root, open) && 1 <= d <= 4 && Has(s, Prefix(va, d - 1)) && !Present(Slot(s, Prefix(va, d - 1), IndexOf(va, d)))
    ensures Translate(s.mem, root, va) == None
  {
    assert Linked(s, Root);
    hide Tree, Slot, Present, IsTable, IndexOf, LeafFor, Walk;
    forall c: nat | 1 <= c <= 4 ensures !LeafFor(s, va, c) {
      StoppedNoLeaf(s, root, open, va, d, c);
    }
    WalkOnlyLeaf(s, root, open, va, 0);
  }
}
