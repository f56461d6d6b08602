/** kernel/src/arch/x86_64/Memory/PageTables.cpp: mapping, remapping and unmapping in the tree of tables. */
module PageTables {
  import opened Basics
  import opened PageEntries
  import opened RadixTree
  import opened RadixUpdate

  /** x86_64_GetNextPageTable, for the levels 4 down to 1. */
  function GetNextPageTable(e: Entry, level: nat): Option<Frame> {
    if level <= 1 then None
    else if level == 3 && PageSize(e) then None
    else if level == 2 && PageSize(e) then None
    else if !Present(e) then None
    else if e.frame == 0 then None
    else Some(Target(e))
  }

  /** In a tree the next table exists exactly if the entry points to one. */
  lemma NextInTree(s: Space, root: Frame, open: Path, q: Path, i: Index)
    requires Tree(s, root, open) && q in s.at && i < 512
    ensures Depth(q) <= 3
    ensures var e := Slot(s, q, i);
      GetNextPageTable(e, 4 - Depth(q)) == if IsTable(e, Depth(q) + 1) then Some(Target(e)) else None
    ensures IsTable(Slot(s, q, i), Depth(q) + 1) ==> Has(s, Sub(q, i)) && s.at[Sub(q, i)] == Target(Slot(s, q, i))
  {
    assert Linked(s, q) && EntryOk(s, q, i);
    if Sub(q, i) in s.at {
      assert Linked(s, Sub(q, i));
    }
  }

  /** What holds on the way down: the table for the first `k` indexes exists, empty and open if it is isNew. */
  ghost predicate Descending(s: Space, root: Frame, va: nat, k: nat, flags: bv32, isNew: bool) {
    && k <= 3 && Tree(s, root, if isNew then Prefix(va, k) else Root) && Has(s, Prefix(va, k))
    && (isNew ==> forall i: Index :: Slot(s, Prefix(va, k), i) == ZERO)
    && (k > 0 ==> Grants(Slot(s, Prefix(va, k - 1), IndexOf(va, k)), flags))
  }

  lemma DescendTree(s: Space, root: Frame, va: nat, k: nat, flags: bv32, isNew: bool)
    requires k <= 3 && Descending(s, root, va, k, flags, isNew)
    ensures Tree(s, root, Prefix(va, k)) && Has(s, Prefix(va, k))
    ensures isNew ==> Slot(s, Prefix(va, k), IndexOf(va, k + 1)) == ZERO
    ensures !isNew ==> Tree(s, root, Root)
  {
    if !isNew {
      hide Tree;
      WeakenTree(s, root, Prefix(va, k));
    }
  }

  /** What the next entry on the way down can be. */
  lemma EntryBelow(s: Space, root: Frame, va: nat, k: nat, flags: bv32, isNew: bool)
    requires k <= 3 && Descending(s, root, va, k, flags, isNew)
    ensures var e, d := Slot(s, Prefix(va, k), IndexOf(va, k + 1)), k + 1;
      && (GetNextPageTable(e, 4 - k) == if IsTable(e, d) then Some(Target(e)) else None)
      && (IsTable(e, d) ==> Has(s, Prefix(va, d)) && s.at[Prefix(va, d)] == Target(e) && !isNew)
      && (!IsTable(e, d) ==> Prefix(va, d) !in s.at && (e == ZERO || (d >= 2 && Present(e) && !isNew && (d == 4 || PageSize(e)))))
      && !Present(ZERO) && (LeafFor(s, va, d) <==> e != ZERO && !IsTable(e, d))
  {
    DescendTree(s, root, va, k, flags, isNew);
    NextInTree(s, root, Prefix(va, k), Prefix(va, k), IndexOf(va, k + 1));
    assert EntryOk(s, Prefix(va, k), IndexOf(va, k + 1));
    assert Prefix(va, k + 1) in s.at ==> Linked(s, Prefix(va, k + 1));
    assert !Present(ZERO);
    hide Tree, IndexOf, Aligned, Within, Slot, Has, GetNextPageTable;
  }

  /** An entry with rights the flags ask for stays within the entry above. */
  lemma GrantedWithin(s: Space, root: Frame, va: nat, k: nat, flags: bv32, isNew: bool, x: Entry)
    requires k <= 3 && Descending(s, root, va, k, flags, isNew)
    requires Asked(x, flags)
    ensures Prefix(va, k).Sub? ==> Within(x, Slot(s, Prefix(va, k).up, Prefix(va, k).index))
  {
    hide Tree, Slot, Write, User;
  }

  /** Passing through the entry of a table. */
  lemma PassThrough(s: Space, root: Frame, va: nat, k: nat, flags: bv32, isNew: bool)
    requires k <= 2 && Descending(s, root, va, k, flags, isNew)
    requires IsTable(Slot(s, Prefix(va, k), IndexOf(va, k + 1)), k + 1)
    ensures var q, i := Prefix(va, k), IndexOf(va, k + 1);
      var s' := Put(s, q, i, Widened(Slot(s, q, i), flags));
      !isNew && Descending(s', root, va, k + 1, flags, false) && SameLeaves(s, s')
  {
    var q, i := Prefix(va, k), IndexOf(va, k + 1);
    var e := Slot(s, q, i);
    var x := Widened(e, flags);
    WidenedBits(e, flags);
    assert !Present(ZERO);
    DescendTree(s, root, va, k, flags, isNew);
    assert EntryOk(s, q, i) && Linked(s, q) && Injective(s.at);
    PassWithin(s, root, va, k, flags, isNew);
    hide Tree, Slot, Present, PageSize, Write, User, NoExecute, Aligned, Widened, IndexOf;
    assert Replaces(s, q, i, x);
    PutTree(s, root, Root, Root, q, i, x);
    WidenLeaves(s, q, i, x);
    StepDown(s, root, Root, va, k);
    SlotPut(s, q, i, x, Prefix(va, k + 1), i);
    SlotPut(s, q, i, x, q, i);
  }

  lemma PassWithin(s: Space, root: Frame, va: nat, k: nat, flags: bv32, isNew: bool)
    requires k <= 2 && Descending(s, root, va, k, flags, isNew) && Present(Slot(s, Prefix(va, k), IndexOf(va, k + 1)))
    ensures var q, x := Prefix(va, k), Widened(Slot(s, Prefix(va, k), IndexOf(va, k + 1)), flags);
      q.Sub? ==> Within(x, Slot(s, q.up, q.index))
  {
    var q, i := Prefix(va, k), IndexOf(va, k + 1);
    assert EntryOk(s, q, i);
    hide Tree, Slot, Write, User, Widened, Present;
    WidenedBits(Slot(s, q, i), flags);
  }

  /** Adding a missing table. */
  lemma AddTable(s: Space, root: Frame, va: nat, k: nat, flags: bv32, isNew: bool, frame: Frame)
    requires k <= 2 && Descending(s, root, va, k, flags, isNew) && frame !in s.at.Values && Aligned(frame)
    requires Slot(s, Prefix(va, k), IndexOf(va, k + 1)) == ZERO
    ensures var q, i := Prefix(va, k), IndexOf(va, k + 1);
      var s' := Grow(s, q, i, frame, TableEntry(frame, flags));
      Sub(q, i) !in s.at && Descending(s', root, va, k + 1, flags, true) && SameLeaves(s, s')
  {
    var q, i := Prefix(va, k), IndexOf(va, k + 1);
    var x := TableEntry(frame, flags);
    TableEntryBits(frame, flags);
    DescendTree(s, root, va, k, flags, isNew);
    assert Linked(s, q) && Injective(s.at);
    GrantedWithin(s, root, va, k, flags, isNew, x);
    hide Tree, Slot, Present, PageSize, Write, User, NoExecute, Aligned, TableEntry, IndexOf;
    assert Extends(s, q, i, frame, x);
    GrowTree(s, root, q, i, frame, x);
    GrowLeaves(s, root, q, i, frame, x);
    forall j: Index ensures Slot(Grow(s, q, i, frame, x), Sub(q, i), j) == ZERO {
      SlotGrow(s, q, i, frame, x, q, j);
    }
    SlotGrow(s, q, i, frame, x, q, i);
  }

  /** The frames of the physical memory manager can hold tables and hold none of the tree's. */
  ghost predicate Pool(free: set<Frame>, at: map<Path, Frame>) {
    forall f :: f in free ==> Aligned(f) && f !in at.Values
  }

  // ---------- One step down ----------

  /** The tree after entering the table for one more index: no translation has changed. */
  ghost predicate Entered(s: Space, s': Space, root: Frame, va: nat, k: nat, flags: bv32, newer: bool) {
    && k <= 2 && Descending(s', root, va, k + 1, flags, newer) && SameLeaves(s, s')
    && s'.at.Keys == s.at.Keys + {Prefix(va, k + 1)}
  }

  lemma AddedPool(free: set<Frame>, at: map<Path, Frame>, p: Path, f: Frame)
    requires Pool(free, at) && f in free
    ensures Pool(free - {f}, at[p := f])
  {
  }

  /** A missing table is allocated, cleared and linked. */
  method Add(mem: map<Frame, Table>, free: set<Frame>, ghost at: map<Path, Frame>, ghost root: Frame,
             va: nat, k: nat, flags: bv32, frame: Frame, ghost isNew: bool)
    returns (mem': map<Frame, Table>, free': set<Frame>, ghost at': map<Path, Frame>, next: Frame)
    requires k <= 2 && Descending(Space(mem, at), root, va, k, flags, isNew) && Pool(free, at) && frame == at[Prefix(va, k)] && free != {}
    requires Slot(Space(mem, at), Prefix(va, k), IndexOf(va, k + 1)) == ZERO
    ensures Entered(Space(mem, at), Space(mem', at'), root, va, k, flags, true) && Pool(free', at') && |free'| == |free| - 1
    ensures Has(Space(mem', at'), Prefix(va, k + 1)) && next == at'[Prefix(va, k + 1)]
  {
    next :| next in free;
    assert Aligned(next) && next !in at.Values;
    AddTable(Space(mem, at), root, va, k, flags, isNew, next);
    AddedPool(free, at, Prefix(va, k + 1), next);
    assert frame in mem && frame != next by {
      assert at[Prefix(va, k)] in at.Values;
    }
    hide Descending, SameLeaves, TableEntry, IndexOf, Aligned, Slot, Pool;
    free' := free - {next};
    mem' := mem[next := map[]];
    mem' := mem'[frame := Store(mem'[frame], IndexOf(va, k + 1), TableEntry(next, flags))];
    at' := at[Prefix(va, k + 1) := next];
    assert at'.Keys == at.Keys + {Prefix(va, k + 1)};
  }

  /** The rights are added to the entry of an existing table. */
  method Pass(mem: map<Frame, Table>, ghost at: map<Path, Frame>, ghost root: Frame,
              va: nat, k: nat, flags: bv32, frame: Frame, ghost isNew: bool)
    returns (mem': map<Frame, Table>)
    requires k <= 2 && Descending(Space(mem, at), root, va, k, flags, isNew) && frame == at[Prefix(va, k)]
    requires IsTable(Slot(Space(mem, at), Prefix(va, k), IndexOf(va, k + 1)), k + 1) && Has(Space(mem, at), Prefix(va, k + 1))
    ensures Entered(Space(mem, at), Space(mem', at), root, va, k, flags, false) && Has(Space(mem', at), Prefix(va, k + 1))
  {
    ghost var s := Space(mem, at);
    PassThrough(s, root, va, k, flags, isNew);
    assert Has(s, Prefix(va, k));
    hide Descending, SameLeaves, Widened, IndexOf, IsTable;
    var e := Get(mem[frame], IndexOf(va, k + 1));
    mem' := mem[frame := Store(mem[frame], IndexOf(va, k + 1), Widened(e, flags))];
  }

  /** One round of the loop of MapPage above the leaf: enters the next table, adding it if it is missing. */
  method Enter(mem: map<Frame, Table>, free: set<Frame>, ghost at: map<Path, Frame>, ghost root: Frame,
               va: nat, k: nat, flags: bv32, frame: Frame, ghost isNew: bool)
    returns (mem': map<Frame, Table>, free': set<Frame>, ghost at': map<Path, Frame>, next: Option<Frame>, ghost newer: bool)
    requires k <= 2 && Descending(Space(mem, at), root, va, k, flags, isNew) && Pool(free, at) && frame == at[Prefix(va, k)]
    requires Prefix(va, k + 1) !in at && !LeafFor(Space(mem, at), va, k + 1) ==> free != {}
    ensures next.None? <==> LeafFor(Space(mem, at), va, k + 1)
    ensures next.None? ==> mem' == mem && at' == at && free' == free && !isNew
    ensures next.Some? ==> Entered(Space(mem, at), Space(mem', at'), root, va, k, flags, newer) && Pool(free', at') && |free'| == |free| - (if Prefix(va, k + 1) in at then 0 else 1)
    ensures next.Some? ==> Has(Space(mem', at'), Prefix(va, k + 1)) && next.value == at'[Prefix(va, k + 1)]
  {
    ghost var s := Space(mem, at);
    EntryBelow(s, root, va, k, flags, isNew);
    assert Has(s, Prefix(va, k));
    mem', free', at', newer := mem, free, at, isNew;
    var e := Get(mem[frame], IndexOf(va, k + 1));
    assert e == Slot(s, Prefix(va, k), IndexOf(va, k + 1));
    hide Entered, IndexOf, Present, PageSize, IsTable, GetNextPageTable, Target, Descending, LeafFor, Pool, Slot;
    next := GetNextPageTable(e, 4 - k);
    if next.Some? {
      mem' := Pass(mem, at, root, va, k, flags, frame, isNew);
      newer := false;
    } else if (k == 1 || k == 2) && PageSize(e) && Present(e) {
      return;
    } else {
      var added;
      mem', free', at', added := Add(mem, free, at, root, va, k, flags, frame, isNew);
      next, newer := Some(added), true;
    }
  }

  // ---------- The leaf ----------

  /** A leaf entry for depth `d` with no more rights than the flags ask for. */
  predicate LeafWith(x: Entry, d: nat, flags: bv32) {
    Present(x) && !IsTable(x, d) && Asked(x, flags)
  }

  lemma WriteLeafTree(s: Space, root: Frame, va: nat, k: nat, flags: bv32, isNew: bool, x: Entry)
    requires k <= 3 && Descending(s, root, va, k, flags, isNew) && LeafWith(x, k + 1, flags)
    requires !IsTable(Slot(s, Prefix(va, k), IndexOf(va, k + 1)), k + 1)
    ensures Tree(Put(s, Prefix(va, k), IndexOf(va, k + 1), x), root, Root)
  {
    DescendTree(s, root, va, k, flags, isNew);
    assert Linked(s, Prefix(va, k));
    GrantedWithin(s, root, va, k, flags, isNew, x);
    hide Tree, Slot, Present, PageSize, Write, User, NoExecute, Aligned, IndexOf;
    PutTree(s, root, Prefix(va, k), Root, Prefix(va, k), IndexOf(va, k + 1), x);
  }

  /** A page of depth `d` can be mapped: no larger page is in the way, and no table of smaller ones. */
  ghost predicate CanMap(s: Space, va: nat, d: nat) {
    (forall c: nat :: 1 <= c < d ==> !LeafFor(s, va, c)) && Prefix(va, d) !in s.at
  }

  /** The translations after mapping `x` at depth `d`. */
  ghost predicate Mapped(mem: map<Frame, Table>, mem': map<Frame, Table>, root: Frame, va: nat, d: nat, x: Entry) {
    forall u: nat :: Translate(mem', root, u) == if Prefix(u, d) == Prefix(va, d) then Some((x, d)) else Translate(mem, root, u)
  }

  ghost predicate SameWalks(mem: map<Frame, Table>, mem': map<Frame, Table>, root: Frame) {
    forall u: nat :: Translate(mem', root, u) == Translate(mem, root, u)
  }

  /** Writing the leaf changes the translation of the addresses under it, and of no other. */
  lemma WriteLeaf(s: Space, root: Frame, va: nat, k: nat, flags: bv32, isNew: bool, x: Entry)
    requires k <= 3 && Descending(s, root, va, k, flags, isNew) && LeafWith(x, k + 1, flags)
    requires !IsTable(Slot(s, Prefix(va, k), IndexOf(va, k + 1)), k + 1)
    ensures var s' := Put(s, Prefix(va, k), IndexOf(va, k + 1), x); Tree(s', root, Root) && Mapped(s.mem, s'.mem, root, va, k + 1, x)
  {
    var s' := Put(s, Prefix(va, k), IndexOf(va, k + 1), x);
    WriteLeafTree(s, root, va, k, flags, isNew, x);
    DescendTree(s, root, va, k, flags, isNew);
    assert Present(x) && !IsTable(x, k + 1);
    hide Descending, Tree, Slot, IsTable, IndexOf, Put, Translate, Prefix, Present, LeafWith;
    forall u: nat
      ensures Translate(s'.mem, root, u) == if Prefix(u, k + 1) == Prefix(va, k + 1) then Some((x, k + 1)) else Translate(s.mem, root, u)
    {
      LeafTranslate(s, root, Prefix(va, k), Root, va, k + 1, x, u);
    }
  }

  /** Passing through changes no translation. */
  lemma PassWalks(s: Space, s': Space, root: Frame, va: nat, k: nat, flags: bv32, isNew: bool, newer: bool)
    requires k <= 2 && Descending(s, root, va, k, flags, isNew) && Entered(s, s', root, va, k, flags, newer)
    ensures (!newer ==> Tree(s', root, Root)) && SameWalks(s.mem, s'.mem, root)
  {
    DescendTree(s, root, va, k, flags, isNew);
    DescendTree(s', root, va, k + 1, flags, newer);
    hide Descending, Tree, SameLeaves, Translate;
    SameLeavesTranslate(s, s', root, Prefix(va, k), Prefix(va, k + 1));
  }

  lemma StartDown(s: Space, root: Frame, va: nat, flags: bv32)
    requires Tree(s, root, Root)
    ensures Descending(s, root, va, 0, flags, false) && SameLeaves(s, s) && s.at[Root] == root && Prefix(va, 0) == Root && Root in s.at
  {
    assert Linked(s, Root);
  }

  lemma SameLeavesAt(s: Space, s': Space, va: nat, d: nat)
    requires SameLeaves(s, s') && 1 <= d <= 4
    ensures LeafFor(s, va, d) <==> LeafFor(s', va, d)
  {
    hide LeafFor;
  }

  lemma MappedTrans(mem: map<Frame, Table>, mem1: map<Frame, Table>, mem': map<Frame, Table>, root: Frame, va: nat, d: nat, x: Entry)
    requires d <= 4 && SameWalks(mem, mem1, root)
    ensures Mapped(mem1, mem', root, va, d, x) ==> Mapped(mem, mem', root, va, d, x)
    ensures SameWalks(mem1, mem', root) ==> SameWalks(mem, mem', root)
  {
    hide Translate;
  }

  lemma SameLeavesTrans(a: Space, b: Space, c: Space)
    requires SameLeaves(a, b) && SameLeaves(b, c)
    ensures SameLeaves(a, c)
  {
    hide LeafFor, Slot, Prefix, IndexOf;
  }

  /** The last round: the entry where the page belongs. */
  method Finish(mem: map<Frame, Table>, ghost at: map<Path, Frame>, ghost root: Frame,
                va: nat, k: nat, x: Entry, flags: bv32, frame: Frame, ghost isNew: bool)
    returns (mem': map<Frame, Table>, ghost ok: bool)
    requires 1 <= k <= 3 && LeafWith(x, k + 1, flags) && Descending(Space(mem, at), root, va, k, flags, isNew) && frame == at[Prefix(va, k)]
    ensures Tree(Space(mem', at), root, Root)
    ensures ok <==> Prefix(va, k + 1) !in at
    ensures if ok then Mapped(mem, mem', root, va, k + 1, x) else SameWalks(mem, mem', root)
  {
    ghost var s := Space(mem, at);
    EntryBelow(s, root, va, k, flags, isNew);
    assert Has(s, Prefix(va, k));
    var e := Get(mem[frame], IndexOf(va, k + 1));
    assert e == Slot(s, Prefix(va, k), IndexOf(va, k + 1));
    hide IndexOf, Present, PageSize, IsTable, GetNextPageTable, Target, LeafFor, Tree, LeafWith, Mapped, SameWalks, Descending, Entered, Slot;
    var next := GetNextPageTable(e, 4 - k);
    if next.None? {
      WriteLeaf(s, root, va, k, flags, isNew, x);
      mem' := mem[frame := Store(mem[frame], IndexOf(va, k + 1), x)];
      ok := true;
    } else {
      TablePresent(e, k + 1);
      mem' := Pass(mem, at, root, va, k, flags, frame, isNew);
      PassWalks(s, Space(mem', at), root, va, k, flags, isNew, false);
      ok := false;
    }
  }

  // ---------- The tables a mapping needs ----------

  /** The tables on the way to an address, below the root, that an entry of depth `d` needs. */
  ghost function OnPath(va: nat, d: nat): set<Path> {
    set c: nat | 1 <= c < d :: Prefix(va, c)
  }

  /** How many of them do not exist. */
  ghost function Missing(at: map<Path, Frame>, va: nat, d: nat): nat {
    if d <= 1 then 0 else Missing(at, va, d - 1) + (if Prefix(va, d - 1) in at then 0 else 1)
  }

  /** The tables after `k` rounds, and the frames that are left. */
  ghost predicate Budget(at0: map<Path, Frame>, at: map<Path, Frame>, frames: nat, free: set<Frame>, va: nat, k: nat) {
    at.Keys == at0.Keys + OnPath(va, k + 1) && |free| + Missing(at0, va, k + 1) == frames
  }

  lemma OnPathNext(va: nat, k: nat)
    ensures OnPath(va, k + 2) == OnPath(va, k + 1) + {Prefix(va, k + 1)} && OnPath(va, 1) == {}
  {
    hide Prefix;
  }

  lemma OffPath(va: nat, k: nat)
    ensures Prefix(va, k) !in OnPath(va, k)
  {
    forall c: nat | 1 <= c < k ensures Prefix(va, c) != Prefix(va, k) {
      assert Depth(Prefix(va, c)) != Depth(Prefix(va, k));
    }
    hide Prefix;
  }

  lemma {:induction false} MissingGrows(at: map<Path, Frame>, va: nat, k: nat, d: nat)
    requires k <= d
    ensures Missing(at, va, k) <= Missing(at, va, d)
    decreases d
  {
    hide Prefix;
    if k < d {
      MissingGrows(at, va, k, d - 1);
    }
  }

  lemma BudgetOpen(at0: map<Path, Frame>, at: map<Path, Frame>, frames: nat, free: set<Frame>, va: nat, k: nat)
    requires Budget(at0, at, frames, free, va, k)
    ensures at.Keys == at0.Keys + OnPath(va, k + 1) && |free| + Missing(at0, va, k + 1) == frames
    ensures (Prefix(va, k + 1) in at <==> Prefix(va, k + 1) in at0) && forall q :: q in at0 ==> q in at
  {
    hide Prefix, OnPath, Missing;
    OffPath(va, k + 1);
    assert Prefix(va, k + 1) in at.Keys <==> Prefix(va, k + 1) in at0.Keys;
    forall q | q in at0 ensures q in at {
      assert q in at0.Keys && q in at.Keys;
    }
  }

  /** As long as a table is missing and no page is in the way, a frame is left for it. */
  lemma FrameLeft(at0: map<Path, Frame>, at: map<Path, Frame>, frames: nat, free: set<Frame>, va: nat, d: nat, k: nat)
    requires Budget(at0, at, frames, free, va, k) && k + 1 < d && Prefix(va, k + 1) !in at && frames >= Missing(at0, va, d)
    ensures free != {}
  {
    hide Prefix, OnPath, Budget;
    BudgetOpen(at0, at, frames, free, va, k);
    MissingGrows(at0, va, k + 2, d);
  }

  lemma BudgetStep(at0: map<Path, Frame>, at: map<Path, Frame>, at': map<Path, Frame>, frames: nat, free: set<Frame>, free': set<Frame>, va: nat, k: nat)
    requires Budget(at0, at, frames, free, va, k) && |free'| == |free| - (if Prefix(va, k + 1) in at then 0 else 1)
    requires at'.Keys == at.Keys + {Prefix(va, k + 1)}
    ensures Budget(at0, at', frames, free', va, k + 1)
  {
    hide Prefix, OnPath;
    BudgetOpen(at0, at, frames, free, va, k);
    OnPathNext(va, k);
    Associate(at0.Keys, OnPath(va, k + 1), {Prefix(va, k + 1)});
  }

  lemma Associate<T>(a: set<T>, b: set<T>, c: set<T>)
    ensures (a + b) + c == a + (b + c)
  {
  }

  lemma Absorb<T>(a: set<T>, b: set<T>)
    requires b <= a
    ensures a + b == a
  {
  }

  /** Where a table on the path is missing nothing below it is in the way. */
  lemma MissingCanMap(s: Space, root: Frame, va: nat, d: nat, k: nat)
    requires Tree(s, root, Root) && k < d <= 4 && Prefix(va, k) !in s.at && forall c: nat :: 1 <= c <= k ==> !LeafFor(s, va, c)
    ensures CanMap(s, va, d)
  {
    hide Tree, LeafFor;
    forall c: nat | 1 <= c < d ensures !LeafFor(s, va, c) {
      if c > k && LeafFor(s, va, c) {
        LeafTable(s, va, c);
        Chain(s, root, Root, va, k, c - 1);
      }
    }
    if Prefix(va, d) in s.at {
      Chain(s, root, Root, va, k, d);
    }
  }

  lemma LeafTable(s: Space, va: nat, c: nat)
    requires LeafFor(s, va, c)
    ensures 1 <= c && Prefix(va, c - 1) in s.at
  {
  }

  /** The tables above an existing one exist. */
  lemma NothingMissing(s: Space, root: Frame, va: nat, k: nat)
    requires Tree(s, root, Root) && k <= 4 && Prefix(va, k) in s.at
    ensures s.at.Keys + OnPath(va, k + 1) == s.at.Keys
  {
    hide Tree, Prefix;
    forall q | q in OnPath(va, k + 1) ensures q in s.at.Keys {
      var c: nat :| 1 <= c < k + 1 && q == Prefix(va, c);
      Chain(s, root, Root, va, c, k);
      HasAt(s, q);
    }
    hide OnPath;
    Absorb(s.at.Keys, OnPath(va, k + 1));
  }

  /** What the loop has done after `k` rounds, from `s0` to `s`. */
  ghost predicate Way(s0: Space, s: Space, frames: nat, free: set<Frame>, root: Frame, va: nat, d: nat, k: nat, flags: bv32, isNew: bool) {
    && k < d <= 4 && Tree(s0, root, Root) && Descending(s, root, va, k, flags, isNew) && Pool(free, s.at) && Budget(s0.at, s.at, frames, free, va, k)
    && SameLeaves(s0, s) && SameWalks(s0.mem, s.mem, root)
    && (forall c: nat :: 1 <= c <= k ==> !LeafFor(s0, va, c)) && (Prefix(va, d) in s.at <==> Prefix(va, d) in s0.at)
  }

  lemma WayStart(s: Space, free: set<Frame>, root: Frame, va: nat, d: nat, flags: bv32)
    requires Tree(s, root, Root) && Pool(free, s.at) && 2 <= d <= 4
    ensures Way(s, s, |free|, free, root, va, d, 0, flags, false)
  {
    StartDown(s, root, va, flags);
    OnPathNext(va, 0);
    hide Tree, Pool, Descending, SameLeaves, LeafFor, OnPath, Prefix, Translate;
    assert s.at.Keys == s.at.Keys + {};
  }

  lemma WayDescends(s0: Space, s: Space, frames: nat, free: set<Frame>, root: Frame, va: nat, d: nat, k: nat, flags: bv32, isNew: bool)
    requires Way(s0, s, frames, free, root, va, d, k, flags, isNew)
    ensures Descending(s, root, va, k, flags, isNew) && Pool(free, s.at) && SameWalks(s0.mem, s.mem, root) && k < d <= 4
  {
    hide Descending, Pool, SameWalks, Tree, Budget, SameLeaves, LeafFor;
  }

  lemma BlockedFacts(s0: Space, s: Space, frames: nat, free: set<Frame>, root: Frame, va: nat, d: nat)
    requires Blocked(s0, s, frames, free, root, va, d)
    ensures Tree(s, root, Root) && Pool(free, s.at) && !CanMap(s0, va, d) && SameWalks(s0.mem, s.mem, root)
    ensures s.at.Keys == s0.at.Keys && |free| == frames && s0.at.Keys + {} == s0.at.Keys
  {
    hide Tree, Pool, CanMap, SameWalks;
  }

  /** A frame is there for the next round if it needs one. */
  lemma WayFrame(s0: Space, s: Space, frames: nat, free: set<Frame>, root: Frame, va: nat, d: nat, k: nat, flags: bv32, isNew: bool)
    requires Way(s0, s, frames, free, root, va, d, k, flags, isNew) && k + 1 < d
    requires CanMap(s0, va, d) ==> frames >= Missing(s0.at, va, d)
    ensures Prefix(va, k + 1) !in s.at && !LeafFor(s, va, k + 1) ==> free != {}
  {
    hide Descending, Pool, SameLeaves, SameWalks, LeafFor, Prefix, Tree, Missing, CanMap, Budget;
    if Prefix(va, k + 1) !in s.at && !LeafFor(s, va, k + 1) {
      SameLeavesAt(s0, s, va, k + 1);
      BudgetOpen(s0.at, s.at, frames, free, va, k);
      MissingCanMap(s0, root, va, d, k + 1);
      FrameLeft(s0.at, s.at, frames, free, va, d, k);
    }
  }

  lemma WayStep(s0: Space, s: Space, s': Space, frames: nat, free: set<Frame>, free': set<Frame>, root: Frame,
                va: nat, d: nat, k: nat, flags: bv32, isNew: bool, newer: bool)
    requires Way(s0, s, frames, free, root, va, d, k, flags, isNew) && k + 1 < d && !LeafFor(s, va, k + 1)
    requires Entered(s, s', root, va, k, flags, newer) && Pool(free', s'.at) && |free'| == |free| - (if Prefix(va, k + 1) in s.at then 0 else 1)
    ensures Way(s0, s', frames, free', root, va, d, k + 1, flags, newer)
  {
    hide Descending, Pool, SameLeaves, SameWalks, LeafFor, Prefix, Tree, Budget;
    assert Depth(Prefix(va, k + 1)) != Depth(Prefix(va, d));
    BudgetStep(s0.at, s.at, s'.at, frames, free, free', va, k);
    PassWalks(s, s', root, va, k, flags, isNew, newer);
    MappedTrans(s0.mem, s.mem, s'.mem, root, va, d, ZERO);
    SameLeavesTrans(s0, s, s');
    SameLeavesAt(s0, s, va, k + 1);
  }

  /** The walk met a larger page; nothing has changed for any address, and there are no new tables. */
  ghost predicate Blocked(s0: Space, s: Space, frames: nat, free: set<Frame>, root: Frame, va: nat, d: nat) {
    Tree(s, root, Root) && Pool(free, s.at) && !CanMap(s0, va, d) && SameWalks(s0.mem, s.mem, root) && s.at.Keys == s0.at.Keys && |free| == frames
  }

  lemma WayBlocked(s0: Space, s: Space, frames: nat, free: set<Frame>, root: Frame, va: nat, d: nat, k: nat, flags: bv32)
    requires Way(s0, s, frames, free, root, va, d, k, flags, false) && k + 1 < d && LeafFor(s, va, k + 1)
    ensures Blocked(s0, s, frames, free, root, va, d)
  {
    hide Pool, SameLeaves, SameWalks, LeafFor, Prefix, Tree, Budget, OnPath, Descending;
    SameLeavesAt(s0, s, va, k + 1);
    LeafTable(s0, va, k + 1);
    NothingMissing(s0, root, va, k);
    NoneMissing(s0, root, va, k);
    BudgetOpen(s0.at, s.at, frames, free, va, k);
    DescendTree(s, root, va, k, flags, false);
  }

  lemma WayDone(s0: Space, s: Space, frames: nat, free: set<Frame>, root: Frame, va: nat, k: nat, flags: bv32, isNew: bool)
    requires Way(s0, s, frames, free, root, va, k + 1, k, flags, isNew)
    ensures CanMap(s0, va, k + 1) <==> Prefix(va, k + 1) !in s.at
    ensures s.at.Keys == s0.at.Keys + (if CanMap(s0, va, k + 1) then OnPath(va, k + 1) else {})
    ensures |free| == frames - (if CanMap(s0, va, k + 1) then Missing(s0.at, va, k + 1) else 0)
  {
    hide Descending, Pool, SameLeaves, SameWalks, LeafFor, Prefix, Tree, OnPath, Budget, Missing;
    BudgetOpen(s0.at, s.at, frames, free, va, k);
    if Prefix(va, k + 1) in s0.at {
      ChainAbove(s0, root, va, k);
      NothingMissing(s0, root, va, k);
      NoneMissing(s0, root, va, k);
    }
    assert s0.at.Keys + {} == s0.at.Keys;
  }

  lemma ChainAbove(s: Space, root: Frame, va: nat, k: nat)
    requires Tree(s, root, Root) && k < 4 && Prefix(va, k + 1) in s.at
    ensures Prefix(va, k) in s.at
  {
    Chain(s, root, Root, va, k, k + 1);
  }

  lemma {:induction false} NoneMissing(s: Space, root: Frame, va: nat, k: nat)
    requires Tree(s, root, Root) && k <= 4 && Prefix(va, k) in s.at
    ensures Missing(s.at, va, k + 1) == 0
    decreases k
  {
    hide Tree, Prefix;
    if k > 0 {
      ChainAbove(s, root, va, k - 1);
      NoneMissing(s, root, va, k - 1);
    }
  }

  /** One round of the loop, counted from where it started. */
  method Round(ghost s0: Space, ghost frames: nat, mem: map<Frame, Table>, free: set<Frame>, ghost at: map<Path, Frame>, ghost root: Frame,
               va: nat, d: nat, k: nat, flags: bv32, frame: Frame, ghost isNew: bool)
    returns (mem': map<Frame, Table>, free': set<Frame>, ghost at': map<Path, Frame>, next: Option<Frame>, ghost newer: bool)
    requires k + 1 < d && Way(s0, Space(mem, at), frames, free, root, va, d, k, flags, isNew) && Prefix(va, k) in at && frame == at[Prefix(va, k)]
    requires CanMap(s0, va, d) ==> frames >= Missing(s0.at, va, d)
    ensures next.None? ==> Blocked(s0, Space(mem', at'), frames, free', root, va, d)
    ensures next.Some? ==> Way(s0, Space(mem', at'), frames, free', root, va, d, k + 1, flags, newer)
    ensures next.Some? ==> Prefix(va, k + 1) in at' && next.value == at'[Prefix(va, k + 1)]
  {
    hide *;
    ghost var s := Space(mem, at);
    WayFrame(s0, s, frames, free, root, va, d, k, flags, isNew);
    WayDescends(s0, s, frames, free, root, va, d, k, flags, isNew);
    mem', free', at', next, newer := Enter(mem, free, at, root, va, k, flags, frame, isNew);
    if next.None? {
      WayBlocked(s0, s, frames, free, root, va, d, k, flags);
    } else {
      WayStep(s0, s, Space(mem', at'), frames, free, free', root, va, d, k, flags, isNew, newer);
      HasAt(Space(mem', at'), Prefix(va, k + 1));
    }
  }

  lemma HasAt(s: Space, q: Path)
    requires Has(s, q)
    ensures q in s.at
  {
  }

  /**
   * The loop of MapPage, Map2MiBPage and Map1GiBPage, for a page entered at depth `d`. It maps exactly if nothing is in the
   * way; then exactly the missing tables are new, each in a frame of its own, and otherwise none is.
   */
  method MapAt(mem: map<Frame, Table>, free: set<Frame>, ghost at: map<Path, Frame>, root: Frame, va: nat, d: nat, x: Entry, flags: bv32)
    returns (mem': map<Frame, Table>, free': set<Frame>, ghost at': map<Path, Frame>, ghost ok: bool)
    requires 2 <= d <= 4 && LeafWith(x, d, flags) && Tree(Space(mem, at), root, Root) && Pool(free, at)
    requires CanMap(Space(mem, at), va, d) ==> |free| >= Missing(at, va, d)
    ensures Tree(Space(mem', at'), root, Root) && Pool(free', at')
    ensures ok <==> CanMap(Space(mem, at), va, d)
    ensures at'.Keys == at.Keys + (if ok then OnPath(va, d) else {}) && |free'| == |free| - (if ok then Missing(at, va, d) else 0)
    ensures if ok then Mapped(mem, mem', root, va, d, x) else SameWalks(mem, mem', root)
  {
    hide *;
    ghost var s := Space(mem, at);
    mem', free', at' := mem, free, at;
    var frame, k: nat := root, 0;
    ghost var isNew := false;
    StartDown(s, root, va, flags);
    WayStart(s, free, root, va, d, flags);
    var blocked := false;
    ok := false;
    while !blocked && k < d - 1
      invariant 0 <= k <= d - 1 && (!blocked ==> Prefix(va, k) in at' && frame == at'[Prefix(va, k)])
      invariant if blocked then Blocked(s, Space(mem', at'), |free|, free', root, va, d) else Way(s, Space(mem', at'), |free|, free', root, va, d, k, flags, isNew)
      decreases d - k, !blocked
    {
      var next;
      ghost var newer;
      mem', free', at', next, newer := Round(s, |free|, mem', free', at', root, va, d, k, flags, frame, isNew);
      if next.None? {
        blocked := true;
      } else {
        frame, k, isNew := next.value, k + 1, newer;
      }
    }
    if blocked {
      BlockedFacts(s, Space(mem', at'), |free|, free', root, va, d);
    } else {
      WayDescends(s, Space(mem', at'), |free|, free', root, va, d, k, flags, isNew);
      WayDone(s, Space(mem', at'), |free|, free', root, va, k, flags, isNew);
      var mem1 := mem';
      mem', ok := Finish(mem1, at', root, va, k, x, flags, frame, isNew);
      MappedTrans(mem, mem1, mem', root, va, d, x);
    }
  }

  // ---------- RemapPage ----------

  /** The next entry on the way down an existing path. */
  lemma DownFacts(s: Space, root: Frame, va: nat, k: nat, flags: bv32)
    requires k <= 2 && Descending(s, root, va, k, flags, false)
    ensures Has(s, Prefix(va, k)) && Tree(s, root, Root)
    ensures var e := Slot(s, Prefix(va, k), IndexOf(va, k + 1));
      && e == Get(s.mem[s.at[Prefix(va, k)]], IndexOf(va, k + 1))
      && (GetNextPageTable(e, 4 - k).Some? <==> IsTable(e, k + 1))
      && (if IsTable(e, k + 1) then Has(s, Prefix(va, k + 1)) && GetNextPageTable(e, 4 - k) == Some(s.at[Prefix(va, k + 1)]) else Prefix(va, 3) !in s.at)
  {
    EntryBelow(s, root, va, k, flags, false);
    DescendTree(s, root, va, k, flags, false);
    hide Tree, GetNextPageTable, IndexOf, IsTable, Prefix;
    if Prefix(va, 3) in s.at {
      Chain(s, root, Root, va, k, 3);
    }
  }

  /** The 4 KiB leaf an address translates to; 0 without one. */
  function PageEntry(mem: map<Frame, Table>, root: Frame, va: nat): Entry {
    var w := Translate(mem, root, va);
    if w.Some? && w.value.1 == 4 then w.value.0 else ZERO
  }

  /** Where the last table exists, its word is the leaf, or 0. */
  lemma LastEntry(s: Space, root: Frame, va: nat)
    requires Tree(s, root, Root) && Prefix(va, 3) in s.at
    ensures Has(s, Prefix(va, 3)) && Slot(s, Prefix(va, 3), IndexOf(va, 4)) == PageEntry(s.mem, root, va)
  {
    var e := Slot(s, Prefix(va, 3), IndexOf(va, 4));
    assert Linked(s, Prefix(va, 3)) && EntryOk(s, Prefix(va, 3), IndexOf(va, 4));
    assert Present(e) ==> LeafFor(s, va, 4);
    hide Tree, Slot, Walk, IndexOf, LeafFor, Prefix, Present;
    if Present(e) {
      WalkLeafRoot(s, root, Root, va, 4);
    } else {
      WalkStopped(s, root, Root, va, 4);
    }
  }

  lemma RemapLeaf(s: Space, root: Frame, va: nat, flags: bv32)
    requires Descending(s, root, va, 3, flags, false)
    ensures Has(s, Prefix(va, 3)) && Slot(s, Prefix(va, 3), IndexOf(va, 4)) == PageEntry(s.mem, root, va)
    ensures var x := Reflagged(PageEntry(s.mem, root, va), flags);
      var s' := Put(s, Prefix(va, 3), IndexOf(va, 4), x);
      Tree(s', root, Root) && Mapped(s.mem, s'.mem, root, va, 4, x)
  {
    DescendTree(s, root, va, 3, flags, false);
    LastEntry(s, root, va);
    var e := PageEntry(s.mem, root, va);
    var x := Reflagged(e, flags);
    ReflaggedBits(e, flags);
    hide Descending, Slot, Reflagged, LeafEntry, Tree, Mapped, PageEntry;
    WriteLeaf(s, root, va, 3, flags, false, x);
  }

  /** The loop of RemapPage. */
  method RemapAt(mem: map<Frame, Table>, ghost at: map<Path, Frame>, root: Frame, va: nat, flags: bv32) returns (mem': map<Frame, Table>)
    requires Tree(Space(mem, at), root, Root)
    ensures Tree(Space(mem', at), root, Root)
    ensures if Prefix(va, 3) in at then Mapped(mem, mem', root, va, 4, Reflagged(PageEntry(mem, root, va), flags)) else SameWalks(mem, mem', root)
  {
    mem' := mem;
    var frame, k: nat := root, 0;
    StartDown(Space(mem, at), root, va, flags);
    assert SameWalks(mem, mem, root);
    hide LeafFor, Tree, Mapped, Descending, SameLeaves, Translate, Prefix, Entered, Reflagged, Slot, IndexOf, GetNextPageTable, SameWalks, IsTable, PageEntry;
    while k < 3
      invariant k <= 3 && Descending(Space(mem', at), root, va, k, flags, false)
      invariant Prefix(va, k) in at && frame == at[Prefix(va, k)] && SameWalks(mem, mem', root)
    {
      DownFacts(Space(mem', at), root, va, k, flags);
      var e := Get(mem'[frame], IndexOf(va, k + 1));
      var next := GetNextPageTable(e, 4 - k);
      if next.None? {
        return;
      }
      mem' := PassOn(mem, mem', at, root, va, k, flags, frame);
      frame, k := next.value, k + 1;
    }
    RemapLeaf(Space(mem', at), root, va, flags);
    SameEntry(mem, mem', root, va);
    ghost var mem1 := mem';
    var e := Get(mem'[frame], IndexOf(va, 4));
    assert e == PageEntry(mem, root, va);
    mem' := mem'[frame := Store(mem'[frame], IndexOf(va, 4), Reflagged(e, flags))];
    MappedTrans(mem, mem1, mem', root, va, 4, Reflagged(e, flags));
  }

  lemma SameEntry(mem: map<Frame, Table>, mem': map<Frame, Table>, root: Frame, va: nat)
    requires SameWalks(mem, mem', root)
    ensures PageEntry(mem, root, va) == PageEntry(mem', root, va)
  {
  }

  /** Pass, counted from the memory RemapPage started with. */
  method PassOn(ghost mem0: map<Frame, Table>, mem: map<Frame, Table>, ghost at: map<Path, Frame>, ghost root: Frame,
                va: nat, k: nat, flags: bv32, frame: Frame)
    returns (mem': map<Frame, Table>)
    requires k <= 2 && Descending(Space(mem, at), root, va, k, flags, false) && frame == at[Prefix(va, k)] && SameWalks(mem0, mem, root)
    requires IsTable(Slot(Space(mem, at), Prefix(va, k), IndexOf(va, k + 1)), k + 1) && Has(Space(mem, at), Prefix(va, k + 1))
    ensures Descending(Space(mem', at), root, va, k + 1, flags, false) && SameWalks(mem0, mem', root)
  {
    hide Descending, SameLeaves, SameWalks, Prefix, IndexOf, IsTable, Slot, Has;
    mem' := Pass(mem, at, root, va, k, flags, frame, false);
    PassWalks(Space(mem, at), Space(mem', at), root, va, k, flags, false, false);
    MappedTrans(mem0, mem, mem', root, va, 4, ZERO);
  }
}
