/** UnmapPage of kernel/src/arch/x86_64/Memory/PageTables.cpp, for four levels. */
module PageUnmap {
  import opened Basics
  import opened PageEntries
  import opened RadixTree
  import opened RadixUpdate
  import opened PageTables

  /** A pointer to a word of a table. */
  datatype EntryPointer = Null | At(frame: Frame, index: Index)

  /** The pointers UnmapPage keeps after `k` steps down, the last one first, and the null pointer at the end. */
  ghost function PathStack(at: map<Path, Frame>, va: nat, k: nat): seq<EntryPointer> {
    if k == 0 then [Null]
    else [At(if Prefix(va, k - 1) in at then at[Prefix(va, k - 1)] else 0, IndexOf(va, k))] + PathStack(at, va, k - 1)
  }

  lemma {:induction false} StackAt(at: map<Path, Frame>, va: nat, k: nat, j: nat)
    requires j <= k && forall m: nat :: m <= k ==> Prefix(va, m) in at
    ensures |PathStack(at, va, k)| == k + 1
    ensures PathStack(at, va, k)[j] == if j == k then Null else At(at[Prefix(va, k - 1 - j)], IndexOf(va, k - j))
    decreases k
  {
    hide Prefix, IndexOf;
    if k > 0 {
      StackAt(at, va, k - 1, if j > 0 then j - 1 else 0);
    }
  }

  /** The first loop, without the write at the end: the table that holds the leaf. */
  method FindLast(mem: map<Frame, Table>, ghost at: map<Path, Frame>, root: Frame, va: nat)
    returns (stack: seq<EntryPointer>, last: Option<Frame>)
    requires Tree(Space(mem, at), root, Root)
    ensures last.Some? <==> Prefix(va, 3) in at
    ensures last.Some? ==> stack == PathStack(at, va, 3) && last.value == at[Prefix(va, 3)]
  {
    stack, last := [Null], None;
    var frame, k: nat := root, 0;
    StartDown(Space(mem, at), root, va, 0);
    hide Tree, Prefix, IndexOf, GetNextPageTable, IsTable, Slot, Descending, SameLeaves;
    while k < 3
      invariant k <= 3 && Prefix(va, k) in at && frame == at[Prefix(va, k)] && stack == PathStack(at, va, k)
    {
      NextOnPath(Space(mem, at), root, va, k);
      stack := [At(frame, IndexOf(va, k + 1))] + stack;
      var next := GetNextPageTable(Get(mem[frame], IndexOf(va, k + 1)), 4 - k);
      if next.None? {
        return;
      }
      frame, k := next.value, k + 1;
    }
    last := Some(frame);
  }

  lemma NextOnPath(s: Space, root: Frame, va: nat, k: nat)
    requires Tree(s, root, Root) && k <= 2 && Prefix(va, k) in s.at
    ensures Has(s, Prefix(va, k))
    ensures var next := GetNextPageTable(Get(s.mem[s.at[Prefix(va, k)]], IndexOf(va, k + 1)), 4 - k);
      if next.Some? then Prefix(va, k + 1) in s.at && next.value == s.at[Prefix(va, k + 1)] else Prefix(va, 3) !in s.at
  {
    assert Linked(s, Prefix(va, k));
    NextInTree(s, root, Root, Prefix(va, k), IndexOf(va, k + 1));
    assert Prefix(va, k + 1) == Sub(Prefix(va, k), IndexOf(va, k + 1));
    hide Tree, Prefix, IndexOf, GetNextPageTable, IsTable;
    if Prefix(va, 3) in s.at {
      Chain(s, root, Root, va, k, 3);
    }
  }

  /** The scan of the 512 entries. */
  method IsEmpty(t: Table) returns (empty: bool)
    ensures empty <==> forall i: Index :: i < 512 ==> !Present(Get(t, i))
  {
    for j := 0 to 512
      invariant forall i: Index :: i < j ==> !Present(Get(t, i))
    {
      if Present(Get(t, j)) {
        return false;
      }
    }
    return true;
  }

  /** The tables gone from the tree are exactly the frames gone to the physical memory manager. */
  ghost predicate Pruned(at: map<Path, Frame>, at': map<Path, Frame>, free: set<Frame>, free': set<Frame>) {
    && (forall q :: q in at' ==> q in at && at'[q] == at[q])
    && free' == free + (at.Values - at'.Values)
  }

  lemma PrunedStep(at: map<Path, Frame>, at1: map<Path, Frame>, free: set<Frame>, free1: set<Frame>, q: Path)
    requires Injective(at) && Pruned(at, at1, free, free1) && q in at1 && Pool(free1, at1)
    ensures Pruned(at, at1 - {q}, free, free1 + {at1[q]})
    ensures at1[q] !in free1 && ((forall r :: r in at1 ==> Aligned(at1[r])) ==> Pool(free1 + {at1[q]}, at1 - {q}))
  {
    var at2 := at1 - {q};
    assert at1[q] in at1.Values;
    forall f ensures f in at1.Values <==> f in at2.Values || f == at1[q] {
      if f in at1.Values {
        var r :| r in at1 && at1[r] == f;
        assert r == q || (r in at2 && at2[r] in at2.Values);
      }
      if f in at2.Values {
        var r :| r in at2 && at2[r] == f;
        assert at1[r] in at1.Values;
      }
    }
    forall r | r in at2 ensures at2[r] != at1[q] {
      assert at[r] == at2[r] && at[q] == at1[q];
    }
    assert at1[q] !in at2.Values;
    assert at1[q] in at.Values;
  }

  /** Taking the empty table of depth `m` out. */
  lemma PruneAtDepth(s: Space, root: Frame, va: nat, m: nat)
    requires 1 <= m <= 3 && Tree(s, root, Prefix(va, m)) && Prefix(va, m) in s.at
    requires Has(s, Prefix(va, m)) ==> forall i: Index :: i < 512 ==> !Present(Get(s.mem[s.at[Prefix(va, m)]], i))
    ensures Has(s, Prefix(va, m - 1))
    ensures var s' := Prune(s, Prefix(va, m - 1), IndexOf(va, m));
      Tree(s', root, Prefix(va, m - 1)) && SameWalks(s.mem, s'.mem, root) && s'.at == s.at - {Prefix(va, m)}
  {
    var p, i := Prefix(va, m - 1), IndexOf(va, m);
    assert Prefix(va, m) == Sub(p, i);
    assert Linked(s, Sub(p, i));
    hide Prefix, IndexOf, Present, Tree, Linked;
    assert !NonEmpty(s, Sub(p, i));
    PruneAt(s, p, i);
    PruneTree(s, root, p, i);
    PruneLeaves(s, root, p, i);
    hide Prune, SameLeaves, NonEmpty, Translate;
    SameLeavesTranslate(s, Prune(s, p, i), root, Sub(p, i), p);
  }

  lemma TargetAbove(s: Space, root: Frame, open: Path, va: nat, m: nat)
    requires 1 <= m <= 3 && Tree(s, root, open) && Prefix(va, m) in s.at
    ensures Has(s, Prefix(va, m - 1)) && Has(s, Prefix(va, m))
    ensures Target(Get(s.mem[s.at[Prefix(va, m - 1)]], IndexOf(va, m))) == s.at[Prefix(va, m)]
  {
    StepDown(s, root, open, va, m - 1);
  }

  lemma CloseTree(s: Space, root: Frame, open: Path)
    requires Tree(s, root, open)
    ensures forall q :: q in s.at ==> Aligned(s.at[q])
    ensures Injective(s.at)
    ensures Has(s, open) && !(forall i: Index :: i < 512 ==> !Present(Get(s.mem[s.at[open]], i))) ==> Tree(s, root, Root)
    ensures open == Root ==> Tree(s, root, Root)
  {
    assert forall q :: q in s.at ==> Linked(s, q);
    if Has(s, open) && !(forall i: Index :: i < 512 ==> !Present(Get(s.mem[s.at[open]], i))) {
      var i: Index :| i < 512 && Present(Get(s.mem[s.at[open]], i));
      assert Present(Slot(s, open, i));
      assert NonEmpty(s, open);
    }
  }

  /** What the second loop keeps while the table of depth `m` may be empty. */
  ghost predicate Pruning(s0: Space, s: Space, free0: set<Frame>, free: set<Frame>, root: Frame, va: nat, m: nat) {
    && Tree(s, root, Prefix(va, m)) && Prefix(va, m) in s.at
    && Pool(free, s.at) && SameWalks(s0.mem, s.mem, root) && Pruned(s0.at, s.at, free0, free)
  }

  lemma PruningStep(s0: Space, s: Space, free0: set<Frame>, free: set<Frame>, root: Frame, va: nat, m: nat)
    requires 1 <= m <= 3 && Injective(s0.at) && Pruning(s0, s, free0, free, root, va, m)
    requires Has(s, Prefix(va, m)) ==> forall i: Index :: i < 512 ==> !Present(Get(s.mem[s.at[Prefix(va, m)]], i))
    ensures Has(s, Prefix(va, m - 1)) && s.at[Prefix(va, m)] !in free
    ensures Pruning(s0, Prune(s, Prefix(va, m - 1), IndexOf(va, m)), free0, free + {s.at[Prefix(va, m)]}, root, va, m - 1)
  {
    CloseTree(s, root, Prefix(va, m));
    var s' := Prune(s, Prefix(va, m - 1), IndexOf(va, m));
    assert Prefix(va, m - 1) != Prefix(va, m);
    hide Tree, IndexOf, Pool, SameWalks, Pruned, Present, Prune, Injective, Prefix, Mapped;
    PrunedStep(s0.at, s.at, free0, free, Prefix(va, m));
    PruneAtDepth(s, root, va, m);
    MappedTrans(s0.mem, s.mem, s'.mem, root, va, 4, ZERO);
  }

  /** One round of the second loop: frees the table of depth `m` if it is empty. */
  method PruneOne(ghost s0: Space, mem: map<Frame, Table>, free0: set<Frame>, free: set<Frame>, ghost at: map<Path, Frame>, ghost root: Frame,
                  ghost va: nat, ghost m: nat, f: Frame, i: Index)
    returns (mem': map<Frame, Table>, free': set<Frame>, ghost at': map<Path, Frame>, stop: bool)
    requires 1 <= m <= 3 && Injective(s0.at) && Pruning(s0, Space(mem, at), free0, free, root, va, m)
    requires Prefix(va, m - 1) in at && f == at[Prefix(va, m - 1)] && i == IndexOf(va, m)
    ensures if stop then Pruning(s0, Space(mem', at'), free0, free', root, va, 0) else Pruning(s0, Space(mem', at'), free0, free', root, va, m - 1)
  {
    ghost var s := Space(mem, at);
    mem', free', at' := mem, free, at;
    TargetAbove(s, root, Prefix(va, m), va, m);
    CloseTree(s, root, Prefix(va, m));
    hide Tree, IndexOf, Pool, SameWalks, Pruned, Present, Target, Injective;
    var table := Target(Get(mem[f], i));
    stop := IsEmpty(mem[table]);
    stop := !stop;
    if !stop {
      PruningStep(s0, s, free0, free, root, va, m);
      PruneAt(s, Prefix(va, m - 1), i);
      free' := free + {table};
      mem' := mem[f := Store(mem[f], i, ZERO)];
      at' := at - {Prefix(va, m)};
    }
  }

  /** The second loop: frees the tables that have become empty, from the last one up. */
  method PruneUp(mem: map<Frame, Table>, free: set<Frame>, ghost at: map<Path, Frame>, ghost root: Frame, ghost va: nat, stack: seq<EntryPointer>)
    returns (mem': map<Frame, Table>, free': set<Frame>, ghost at': map<Path, Frame>)
    requires Tree(Space(mem, at), root, Prefix(va, 3)) && Prefix(va, 3) in at && stack == PathStack(at, va, 3) && Pool(free, at)
    ensures Tree(Space(mem', at'), root, Root) && Pool(free', at') && SameWalks(mem, mem', root) && Pruned(at, at', free, free')
  {
    mem', free', at' := mem, free, at;
    ghost var s := Space(mem, at);
    PruningStart(s, free, root, va);
    hide Pruning, Tree, PathStack, Pool, SameWalks, Pruned, Prefix, Injective, IndexOf;
    var j: nat, stop := 0, false;
    ghost var m: nat := 3;
    while !stop
      invariant (if stop then m == 0 else j + m == 3) && Pruning(s, Space(mem', at'), free, free', root, va, m)
      decreases m, !stop
    {
      StackTop(s, Space(mem', at'), free, free', root, va, m);
      if stack[j].Null? {
        stop := true;
      } else {
        mem', free', at', stop := PruneOne(s, mem', free, free', at', root, va, m, stack[j].frame, stack[j].index);
        j, m := j + 1, if stop then 0 else m - 1;
      }
    }
    PruningDone(s, Space(mem', at'), free, free', root, va);
  }

  lemma StackTop(s0: Space, s: Space, free0: set<Frame>, free: set<Frame>, root: Frame, va: nat, m: nat)
    requires m <= 3 && Pruning(s0, s, free0, free, root, va, m) && forall k: nat :: k <= 3 ==> Prefix(va, k) in s0.at
    ensures var stack := PathStack(s0.at, va, 3);
      && |stack| == 4
      && if m == 0 then stack[3] == Null else Prefix(va, m - 1) in s.at && stack[3 - m] == At(s.at[Prefix(va, m - 1)], IndexOf(va, m))
  {
    hide Pruning, PathStack, Prefix, IndexOf;
    StackAt(s0.at, va, 3, 3 - m);
    if m > 0 {
      PathKept(s0, s, free0, free, root, va, m);
    }
  }

  lemma PruningStart(s: Space, free: set<Frame>, root: Frame, va: nat)
    requires Tree(s, root, Prefix(va, 3)) && Prefix(va, 3) in s.at && Pool(free, s.at)
    ensures Pruning(s, s, free, free, root, va, 3) && Injective(s.at) && forall m: nat :: m <= 3 ==> Prefix(va, m) in s.at
  {
    CloseTree(s, root, Prefix(va, 3));
    assert Pruned(s.at, s.at, free, free) && SameWalks(s.mem, s.mem, root);
    hide Tree, Prefix;
    forall m: nat | m <= 3 ensures Prefix(va, m) in s.at {
      Chain(s, root, Prefix(va, 3), va, m, 3);
    }
  }

  lemma PruningDone(s0: Space, s: Space, free0: set<Frame>, free: set<Frame>, root: Frame, va: nat)
    requires Pruning(s0, s, free0, free, root, va, 0)
    ensures Tree(s, root, Root) && Pool(free, s.at) && SameWalks(s0.mem, s.mem, root) && Pruned(s0.at, s.at, free0, free)
  {
  }

  lemma PathKept(s0: Space, s: Space, free0: set<Frame>, free: set<Frame>, root: Frame, va: nat, m: nat)
    requires 1 <= m <= 3 && Pruning(s0, s, free0, free, root, va, m)
    ensures Prefix(va, m - 1) in s.at && Prefix(va, m - 1) in s0.at && s.at[Prefix(va, m - 1)] == s0.at[Prefix(va, m - 1)]
  {
    Chain(s, root, Prefix(va, m), va, m - 1, m);
  }

  /** The translations after unmapping a 4 KiB page. */
  ghost predicate Unmapped(mem: map<Frame, Table>, mem': map<Frame, Table>, root: Frame, va: nat) {
    forall u: nat :: Translate(mem', root, u) == if Prefix(u, 4) == Prefix(va, 4) then None else Translate(mem, root, u)
  }

  /** Clearing the leaf may leave its table empty. */
  lemma ClearLeaf(s: Space, root: Frame, va: nat)
    requires Tree(s, root, Root) && Prefix(va, 3) in s.at
    ensures Has(s, Prefix(va, 3))
    ensures var s' := Put(s, Prefix(va, 3), IndexOf(va, 4), ZERO); Tree(s', root, Prefix(va, 3)) && Unmapped(s.mem, s'.mem, root, va)
  {
    var q, i := Prefix(va, 3), IndexOf(va, 4);
    var s' := Put(s, q, i, ZERO);
    assert Linked(s, q) && !Present(ZERO);
    WeakenTree(s, root, q);
    assert Replaces(s, q, i, ZERO);
    hide Tree, Slot, Put, IndexOf, Prefix, Present, Translate;
    PutTree(s, root, q, q, q, i, ZERO);
    forall u: nat ensures Translate(s'.mem, root, u) == if Prefix(u, 4) == Prefix(va, 4) then None else Translate(s.mem, root, u) {
      LeafTranslate(s, root, Root, q, va, 4, ZERO, u);
    }
  }

  /** The whole of UnmapPage: an address below a larger page, or without a last table, is left alone. */
  method UnmapAt(mem: map<Frame, Table>, free: set<Frame>, ghost at: map<Path, Frame>, root: Frame, va: nat)
    returns (mem': map<Frame, Table>, free': set<Frame>, ghost at': map<Path, Frame>)
    requires Tree(Space(mem, at), root, Root) && Pool(free, at)
    ensures Tree(Space(mem', at'), root, Root) && Pool(free', at') && Pruned(at, at', free, free')
    ensures if Prefix(va, 3) in at then Unmapped(mem, mem', root, va) else SameWalks(mem, mem', root) && at' == at
  {
    mem', free', at' := mem, free, at;
    assert Pruned(at, at, free, free) && SameWalks(mem, mem, root);
    hide Tree, Pool, Pruned, Unmapped, SameWalks, PathStack, Prefix;
    var stack, last := FindLast(mem, at, root, va);
    if last.Some? {
      ClearLeaf(Space(mem, at), root, va);
      var mem1 := mem[last.value := Store(mem[last.value], IndexOf(va, 4), ZERO)];
      mem', free', at' := PruneUp(mem1, free, at, root, va, stack);
      UnmappedTrans(mem, mem1, mem', root, va);
    }
  }

  lemma UnmappedTrans(mem: map<Frame, Table>, mem1: map<Frame, Table>, mem': map<Frame, Table>, root: Frame, va: nat)
    requires Unmapped(mem, mem1, root, va) && SameWalks(mem1, mem', root)
    ensures Unmapped(mem, mem', root, va)
  {
    hide Translate;
  }

  /** On the way to a table there is no leaf. */
  lemma TableNoLeaf(s: Space, root: Frame, u: nat, m: nat, c: nat)
    requires Tree(s, root, Root) && 1 <= c <= m <= 3 && Prefix(u, m) in s.at
    ensures !LeafFor(s, u, c)
  {
    hide Tree, Prefix, IndexOf, Slot, IsTable, Present;
    Chain(s, root, Root, u, c - 1, m);
  }

  /** Below a missing table there is none either. */
  lemma NoTableNoLeaf(s: Space, root: Frame, u: nat, m: nat, c: nat)
    requires Tree(s, root, Root) && m < c <= 4 && Prefix(u, m) !in s.at
    ensures !LeafFor(s, u, c)
  {
    hide Tree, Prefix, IndexOf, Slot, IsTable, Present;
    if LeafFor(s, u, c) {
      Chain(s, root, Root, u, m, c - 1);
    }
  }

  /** A table that was part of the tree and is no longer leads nowhere: no address below it has a translation. */
  lemma GoneEmpty(s: Space, s': Space, root: Frame, va: nat, u: nat, m: nat)
    requires Tree(s, root, Root) && Tree(s', root, Root) && Unmapped(s.mem, s'.mem, root, va)
    requires 1 <= m <= 3 && Prefix(u, m) in s.at && Prefix(u, m) !in s'.at
    ensures Translate(s'.mem, root, u) == None
  {
    assert Linked(s, Root) && Linked(s', Root);
    hide Tree, Walk, Prefix, IndexOf, LeafFor, Linked;
    WalkOnlyLeaf(s', root, Root, u, 0);
    WalkOnlyLeaf(s, root, Root, u, 0);
    forall c: nat | 1 <= c <= m ensures !LeafFor(s, u, c) {
      TableNoLeaf(s, root, u, m, c);
    }
    forall c: nat | m < c <= 4 ensures !LeafFor(s', u, c) {
      NoTableNoLeaf(s', root, u, m, c);
    }
  }
}
