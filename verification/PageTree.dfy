/** The page tables of one address space, as an object. */
module PageTrees {
  import opened Basics
  import opened PageEntries
  import opened RadixTree
  import opened PageTables
  import opened PageUnmap
  import opened PageRights

  lemma SmallLeaf(phys: nat, flags: bv32)
    ensures LeafWith(LeafEntry(phys, flags), 4, flags)
  {
    LeafEntryBits(phys, flags);
    hide LeafEntry, Present, PageSize;
  }

  lemma LargeLeaf(phys: nat, flags: bv32, d: nat)
    requires 2 <= d <= 3
    ensures LeafWith(LargeEntry(phys, flags, d), d, flags)
  {
    LargeEntryBits(phys, flags, d);
    hide LargeEntry, Present, PageSize;
  }

  class PageTree {
    const root: Frame
    var mem: map<Frame, Table>
    /** The frames the physical memory manager can hand out. */
    var free: set<Frame>
    /** Where each table hangs. */
    ghost var at: map<Path, Frame>

    ghost predicate Valid()
      reads this
    {
      Tree(Space(mem, at), root, Root) && Pool(free, at)
    }

    /** An empty root table. */
    constructor (root: Frame, frames: set<Frame>)
      requires Aligned(root) && root !in frames && forall f :: f in frames ==> Aligned(f)
      ensures Valid() && this.root == root && free == frames && forall va: nat :: Translate(mem, root, va) == None
    {
      this.root, mem, free, at := root, map[root := map[]], frames, map[Root := root];
    }

    /** x86_64_MapPage. */
    method MapPage(va: nat, phys: nat, flags: bv32) returns (ghost ok: bool)
      requires Valid() && (CanMap(Space(mem, at), va, 4) ==> |free| >= Missing(at, va, 4))
      modifies this
      ensures Valid() && (ok <==> CanMap(old(Space(mem, at)), va, 4))
      ensures at.Keys == old(at.Keys) + (if ok then OnPath(va, 4) else {}) && |free| == |old(free)| - (if ok then Missing(old(at), va, 4) else 0)
      ensures if ok then Mapped(old(mem), mem, root, va, 4, LeafEntry(phys, flags)) else SameWalks(old(mem), mem, root)
      ensures ok ==> WalkRights(mem, root, va, 0) == Some(Asks(flags)) && Physical(Translate(mem, root, va)) == phys % FRAMES
    {
      hide Tree, Pool, LeafEntry, CanMap, Missing, OnPath, Mapped, SameWalks, LeafWith, WalkRights, Asks, Translate, Own;
      SmallLeaf(phys, flags);
      mem, free, at, ok := MapAt(mem, free, at, root, va, 4, LeafEntry(phys, flags), flags);
      if ok {
        OwnRights(phys, ZERO, flags, 4);
        MappedRights(Space(mem, at), root, old(mem), va, 4, LeafEntry(phys, flags), flags);
        LeafEntryBits(phys, flags);
      }
    }

    /** x86_64_Map2MiBPage. */
    method Map2MiBPage(va: nat, phys: nat, flags: bv32) returns (ghost ok: bool)
      requires Valid() && (CanMap(Space(mem, at), va, 3) ==> |free| >= Missing(at, va, 3))
      modifies this
      ensures Valid() && (ok <==> CanMap(old(Space(mem, at)), va, 3))
      ensures at.Keys == old(at.Keys) + (if ok then OnPath(va, 3) else {}) && |free| == |old(free)| - (if ok then Missing(old(at), va, 3) else 0)
      ensures if ok then Mapped(old(mem), mem, root, va, 3, LargeEntry(phys, flags, 3)) else SameWalks(old(mem), mem, root)
      ensures ok ==> WalkRights(mem, root, va, 0) == Some(Asks(flags))
    {
      hide Tree, Pool, LargeEntry, CanMap, Missing, OnPath, Mapped, SameWalks, LeafWith, WalkRights, Asks, Translate, Own;
      LargeLeaf(phys, flags, 3);
      mem, free, at, ok := MapAt(mem, free, at, root, va, 3, LargeEntry(phys, flags, 3), flags);
      if ok {
        OwnRights(phys, ZERO, flags, 3);
        MappedRights(Space(mem, at), root, old(mem), va, 3, LargeEntry(phys, flags, 3), flags);
      }
    }

    /** x86_64_Map1GiBPage. */
    method Map1GiBPage(va: nat, phys: nat, flags: bv32) returns (ghost ok: bool)
      requires Valid() && (CanMap(Space(mem, at), va, 2) ==> |free| >= Missing(at, va, 2))
      modifies this
      ensures Valid() && (ok <==> CanMap(old(Space(mem, at)), va, 2))
      ensures at.Keys == old(at.Keys) + (if ok then OnPath(va, 2) else {}) && |free| == |old(free)| - (if ok then Missing(old(at), va, 2) else 0)
      ensures if ok then Mapped(old(mem), mem, root, va, 2, LargeEntry(phys, flags, 2)) else SameWalks(old(mem), mem, root)
      ensures ok ==> WalkRights(mem, root, va, 0) == Some(Asks(flags))
    {
      hide Tree, Pool, LargeEntry, CanMap, Missing, OnPath, Mapped, SameWalks, LeafWith, WalkRights, Asks, Translate, Own;
      LargeLeaf(phys, flags, 2);
      mem, free, at, ok := MapAt(mem, free, at, root, va, 2, LargeEntry(phys, flags, 2), flags);
      if ok {
        OwnRights(phys, ZERO, flags, 2);
        MappedRights(Space(mem, at), root, old(mem), va, 2, LargeEntry(phys, flags, 2), flags);
      }
    }

    /** x86_64_RemapPage: writes the last entry whenever its table exists. */
    method RemapPage(va: nat, flags: bv32)
      requires Valid()
      modifies this`mem
      ensures Valid()
      ensures if Prefix(va, 3) in at then Mapped(old(mem), mem, root, va, 4, Reflagged(PageEntry(old(mem), root, va), flags))
        else SameWalks(old(mem), mem, root)
      ensures Prefix(va, 3) in at ==> WalkRights(mem, root, va, 0) == Some(Asks(flags))
      ensures Translate(old(mem), root, va).Some? && Translate(old(mem), root, va).value.1 == 4 ==>
        && WalkRights(mem, root, va, 0) == Some(Asks(flags))
        && Physical(Translate(mem, root, va)) == Physical(Translate(old(mem), root, va))
    {
      hide Tree, Pool, Mapped, SameWalks, Reflagged, Prefix, WalkRights, Asks, Translate, Own;
      ghost var raw := PageEntry(mem, root, va);
      SmallMapped(Space(mem, at), root, va);
      mem := RemapAt(mem, at, root, va, flags);
      if Prefix(va, 3) in at {
        OwnRights(0, raw, flags, 4);
        MappedRights(Space(mem, at), root, old(mem), va, 4, Reflagged(raw, flags), flags);
        ReflaggedBits(raw, flags);
      }
    }

    /** x86_64_UnmapPage. */
    method UnmapPage(va: nat)
      requires Valid()
      modifies this
      ensures Valid() && Pruned(old(at), at, old(free), free)
      ensures if Prefix(va, 3) in old(at) then Unmapped(old(mem), mem, root, va) else SameWalks(old(mem), mem, root) && at == old(at)
    {
      hide Tree, Pool, Unmapped, SameWalks, Pruned, Prefix;
      mem, free, at := UnmapAt(mem, free, at, root, va);
    }
  }
}
