/** Runs of MapPage, RemapPage and UnmapPage against a flat map from pages to leaf entries. */
module PageRuns {
  import opened Basics
  import opened PageEntries
  import opened RadixTree
  import opened RadixUpdate
  import opened PageTables
  import opened PageUnmap
  import opened PageTrees

  /** Leaf entries by page. */
  type Flat = map<Path, Entry>

  datatype Op = Map(va: nat, phys: nat, flags: bv32) | Remap(va: nat, flags: bv32) | Unmap(va: nat)

  /** Some page of the same last table is mapped. */
  ghost predicate HasNeighbour(f: Flat, va: nat) {
    exists p :: p in f && p.Sub? && p.up == Prefix(va, 3)
  }

  ghost function FlatStep(f: Flat, op: Op): Flat {
    var p := Prefix(op.va, 4);
    match op
    case Map(_, phys, flags) => f[p := LeafEntry(phys, flags)]
    case Remap(_, flags) => if HasNeighbour(f, op.va) then f[p := Reflagged(if p in f then f[p] else ZERO, flags)] else f
    case Unmap(_) => f - {p}
  }

  ghost function FlatRun(f: Flat, ops: seq<Op>): Flat {
    if ops == [] then f else FlatStep(FlatRun(f, ops[..|ops| - 1]), ops[|ops| - 1])
  }

  /** A remap that only changes pages that are mapped. */
  ghost function RemapMapped(f: Flat, va: nat, flags: bv32): Flat {
    var p := Prefix(va, 4);
    if p in f then f[p := Reflagged(f[p], flags)] else f
  }

  /** RemapPage is such a remap exactly if the page is mapped or its last table does not exist. */
  lemma RemapExact(f: Flat, va: nat, flags: bv32)
    ensures FlatStep(f, Remap(va, flags)) == RemapMapped(f, va, flags) <==> Prefix(va, 4) in f || !HasNeighbour(f, va)
  {
    var p := Prefix(va, 4);
    if p in f {
      assert p.up == Prefix(va, 3);
      assert HasNeighbour(f, va);
    } else if HasNeighbour(f, va) {
      assert p in FlatStep(f, Remap(va, flags));
    }
  }

  /** A remap of a page that was never mapped makes it present, with frame 0. */
  lemma RemapUnmapped(flags: bv32)
    ensures var f := FlatRun(map[], [Map(1, 5, flags), Remap(0, flags)]);
      Prefix(0, 4) in f && Present(f[Prefix(0, 4)]) && f[Prefix(0, 4)].frame == 0
  {
    var ops := [Map(1, 5, flags), Remap(0, flags)];
    assert ops[..1] == [Map(1, 5, flags)] && ops[..1][..0] == [];
    var f1 := FlatRun(map[], ops[..1]);
    assert f1 == FlatStep(FlatRun(map[], []), Map(1, 5, flags));
    var p1 := Prefix(1, 4);
    Nearby(1, 0);
    assert p1 in f1 && p1.up == Prefix(0, 3);
    assert HasNeighbour(f1, 0);
    assert IndexOf(0, 4) != IndexOf(1, 4);
    assert Prefix(0, 4) !in f1;
    ReflaggedBits(ZERO, flags);
  }

  /** Pages of the same block of 512 share the last table. */
  lemma Nearby(va: nat, u: nat)
    requires va / 512 == u / 512
    ensures Prefix(va, 3) == Prefix(u, 3)
  {
    assert va / 262144 == (va / 512) / 512 && va / 134217728 == (va / 512) / 262144;
    assert u / 262144 == (u / 512) / 512 && u / 134217728 == (u / 512) / 262144;
    assert Prefix(va, 0) == Prefix(u, 0);
    assert Prefix(va, 1) == Prefix(u, 1);
    assert Prefix(va, 2) == Prefix(u, 2);
  }

  /** The page with another last index. */
  function Sibling(va: nat, i: Index): nat {
    va - va % 512 + i
  }

  lemma SiblingIndex(va: nat, i: Index)
    requires i < 512
    ensures IndexOf(Sibling(va, i), 4) == i && Prefix(Sibling(va, i), 3) == Prefix(va, 3)
  {
    Nearby(Sibling(va, i), va);
  }

  // ---------- The tables against the flat map ----------

  /** Every page of the flat map is the page of some address. */
  ghost predicate AllPages(f: Flat) {
    forall p :: p in f ==> exists u: nat :: p == Prefix(u, 4)
  }

  /** The walk gives what the flat map says, for every address. */
  ghost predicate Agrees(mem: map<Frame, Table>, root: Frame, f: Flat) {
    forall u: nat :: Translate(mem, root, u) == if Prefix(u, 4) in f then Some((f[Prefix(u, 4)], 4)) else None
  }

  lemma AgreesAt(mem: map<Frame, Table>, root: Frame, f: Flat, u: nat)
    requires Agrees(mem, root, f)
    ensures Translate(mem, root, u) == if Prefix(u, 4) in f then Some((f[Prefix(u, 4)], 4)) else None
  {
    hide Translate, Prefix;
  }

  /** Without large pages every page can be mapped. */
  lemma AlwaysMaps(s: Space, root: Frame, f: Flat, va: nat)
    requires Tree(s, root, Root) && Agrees(s.mem, root, f)
    ensures CanMap(s, va, 4)
  {
    assert Prefix(va, 4) in s.at ==> Linked(s, Prefix(va, 4));
    AgreesAt(s.mem, root, f, va);
    hide Tree, Translate, Prefix, LeafFor, Agrees;
    forall c: nat | 1 <= c < 4 ensures !LeafFor(s, va, c) {
      if LeafFor(s, va, c) {
        WalkLeafRoot(s, root, Root, va, c);
      }
    }
  }

  /** The last table for an address exists exactly if one of its pages is mapped. */
  lemma TableHasPage(s: Space, root: Frame, f: Flat, va: nat)
    requires Tree(s, root, Root) && Agrees(s.mem, root, f) && Prefix(va, 3) in s.at
    ensures HasNeighbour(f, va)
  {
    var q := Prefix(va, 3);
    assert NonEmpty(s, q) && Linked(s, q);
    var i: Index :| i < 512 && Present(Slot(s, q, i));
    var u := Sibling(va, i);
    assert Prefix(u, 3) == q && IndexOf(u, 4) == i by {
      SiblingIndex(va, i);
    }
    assert Prefix(u, 4) == Sub(q, i) && LeafFor(s, u, 4);
    hide Tree, Translate, Prefix, Agrees, Sibling, LeafFor;
    WalkLeafRoot(s, root, Root, u, 4);
    AgreesAt(s.mem, root, f, u);
    assert Sub(q, i) in f;
  }

  lemma PageHasTable(s: Space, root: Frame, f: Flat, va: nat)
    requires Tree(s, root, Root) && Agrees(s.mem, root, f) && AllPages(f) && HasNeighbour(f, va)
    ensures Prefix(va, 3) in s.at
  {
    var p :| p in f && p.Sub? && p.up == Prefix(va, 3);
    var u: nat :| p == Prefix(u, 4);
    assert Prefix(u, 3) == Prefix(va, 3) && Linked(s, Root);
    AgreesAt(s.mem, root, f, u);
    WalkOnlyLeaf(s, root, Root, u, 0);
  }

  lemma MapAgrees(mem: map<Frame, Table>, mem': map<Frame, Table>, root: Frame, f: Flat, va: nat, x: Entry)
    requires Agrees(mem, root, f) && AllPages(f) && Mapped(mem, mem', root, va, 4, x)
    ensures Agrees(mem', root, f[Prefix(va, 4) := x]) && AllPages(f[Prefix(va, 4) := x])
  {
    var f' := f[Prefix(va, 4) := x];
    hide Translate, Prefix;
    forall u: nat ensures Translate(mem', root, u) == if Prefix(u, 4) in f' then Some((f'[Prefix(u, 4)], 4)) else None {
      AgreesAt(mem, root, f, u);
    }
  }

  lemma UnmapAgrees(mem: map<Frame, Table>, mem': map<Frame, Table>, root: Frame, f: Flat, va: nat)
    requires Agrees(mem, root, f) && AllPages(f) && Unmapped(mem, mem', root, va)
    ensures Agrees(mem', root, f - {Prefix(va, 4)}) && AllPages(f - {Prefix(va, 4)})
  {
    var f' := f - {Prefix(va, 4)};
    hide Translate, Prefix;
    forall u: nat ensures Translate(mem', root, u) == if Prefix(u, 4) in f' then Some((f'[Prefix(u, 4)], 4)) else None {
      AgreesAt(mem, root, f, u);
    }
  }

  lemma SameAgrees(mem: map<Frame, Table>, mem': map<Frame, Table>, root: Frame, f: Flat)
    requires Agrees(mem, root, f) && SameWalks(mem, mem', root)
    ensures Agrees(mem', root, f)
  {
    hide Translate, Prefix;
  }

  /** Without a last table the page is not mapped. */
  lemma NoTableNoPage(s: Space, root: Frame, f: Flat, va: nat)
    requires Tree(s, root, Root) && Agrees(s.mem, root, f) && Prefix(va, 3) !in s.at
    ensures Prefix(va, 4) !in f
  {
    assert Linked(s, Root);
    AgreesAt(s.mem, root, f, va);
    WalkOnlyLeaf(s, root, Root, va, 0);
  }

  lemma PageEntryIs(mem: map<Frame, Table>, root: Frame, f: Flat, va: nat)
    requires Agrees(mem, root, f)
    ensures PageEntry(mem, root, va) == if Prefix(va, 4) in f then f[Prefix(va, 4)] else ZERO
  {
    AgreesAt(mem, root, f, va);
    hide Translate, Prefix;
  }

  /** A page is to be mapped and there are fewer frames left than tables missing for it. */
  ghost predicate OutOfFrames(at: map<Path, Frame>, free: set<Frame>, op: Op) {
    op.Map? && |free| < Missing(at, op.va, 4)
  }

  /** One call does to the walk what one step does to the flat map. */
  method Perform(t: PageTree, ghost f: Flat, op: Op)
    requires t.Valid() && Agrees(t.mem, t.root, f) && AllPages(f) && !OutOfFrames(t.at, t.free, op)
    modifies t
    ensures t.Valid()
    ensures Agrees(t.mem, t.root, FlatStep(f, op)) && AllPages(FlatStep(f, op))
  {
    ghost var s := Space(t.mem, t.at);
    hide Tree, Pool, Agrees, AllPages, Mapped, Unmapped, SameWalks, Pruned, LeafEntry, Reflagged, PageEntry, CanMap, HasNeighbour, Prefix, Missing;
    match op
    case Map(va, phys, flags) =>
      AlwaysMaps(s, t.root, f, va);
      ghost var ok := t.MapPage(va, phys, flags);
      MapAgrees(s.mem, t.mem, t.root, f, va, LeafEntry(phys, flags));
    case Remap(va, flags) =>
      PageEntryIs(t.mem, t.root, f, va);
      NeighbourIffTable(s, t.root, f, va);
      t.RemapPage(va, flags);
      if Prefix(va, 3) in t.at {
        MapAgrees(s.mem, t.mem, t.root, f, va, Reflagged(PageEntry(s.mem, t.root, va), flags));
      } else {
        SameAgrees(s.mem, t.mem, t.root, f);
      }
    case Unmap(va) =>
      UnmapStep(t, f, va);
  }

  lemma NeighbourIffTable(s: Space, root: Frame, f: Flat, va: nat)
    requires Tree(s, root, Root) && Agrees(s.mem, root, f) && AllPages(f)
    ensures HasNeighbour(f, va) <==> Prefix(va, 3) in s.at
  {
    hide Tree, Agrees, AllPages, HasNeighbour, Prefix;
    if Prefix(va, 3) in s.at {
      TableHasPage(s, root, f, va);
    }
    if HasNeighbour(f, va) {
      PageHasTable(s, root, f, va);
    }
  }

  method UnmapStep(t: PageTree, ghost f: Flat, va: nat)
    requires t.Valid() && Agrees(t.mem, t.root, f) && AllPages(f)
    modifies t
    ensures t.Valid()
    ensures Agrees(t.mem, t.root, f - {Prefix(va, 4)}) && AllPages(f - {Prefix(va, 4)})
  {
    ghost var s := Space(t.mem, t.at);
    hide Tree, Pool, Agrees, Unmapped, SameWalks, Prefix;
    if Prefix(va, 3) !in t.at {
      NoTableNoPage(s, t.root, f, va);
      assert f - {Prefix(va, 4)} == f;
    }
    t.UnmapPage(va);
    if Prefix(va, 3) in s.at {
      UnmapAgrees(s.mem, t.mem, t.root, f, va);
    } else {
      SameAgrees(s.mem, t.mem, t.root, f);
    }
  }

  lemma {:induction false} MissingFrom(at: map<Path, Frame>, va: nat, k: nat, d: nat)
    requires k <= d && Missing(at, va, k + 1) == 0 && forall c: nat :: k < c <= d ==> Prefix(va, c) !in at
    ensures Missing(at, va, d + 1) == d - k
    decreases d
  {
    hide Prefix;
    if k < d {
      MissingFrom(at, va, k, d - 1);
    }
  }

  /** With the first `k` tables of a path in place and the next one missing, all below are missing. */
  lemma MissingBelow(s: Space, root: Frame, va: nat, k: nat)
    requires Tree(s, root, Root) && k <= 3 && Prefix(va, k) in s.at && (k < 3 ==> Prefix(va, k + 1) !in s.at)
    ensures Missing(s.at, va, 4) == 3 - k
  {
    hide Tree, Missing, Prefix;
    NoneMissing(s, root, va, k);
    forall c: nat | k < c <= 3 ensures Prefix(va, c) !in s.at {
      if Prefix(va, c) in s.at {
        Chain(s, root, Root, va, k + 1, c);
      }
    }
    MissingFrom(s.at, va, k, 3);
  }

  /** Counts the tables that are missing for an address, by walking down. */
  method CountMissing(mem: map<Frame, Table>, ghost at: map<Path, Frame>, root: Frame, va: nat) returns (m: nat)
    requires Tree(Space(mem, at), root, Root)
    ensures m == Missing(at, va, 4)
  {
    ghost var s := Space(mem, at);
    assert Linked(s, Root) && Prefix(va, 0) == Root;
    hide Tree, Prefix, Missing;
    var frame, k := root, 0;
    var found := true;
    while k < 3 && found
      invariant k <= 3 && Prefix(va, k) in at && frame == at[Prefix(va, k)] && (!found ==> k < 3 && Prefix(va, k + 1) !in at)
      decreases 3 - k, found
    {
      StepOrStop(s, root, va, k);
      var next := GetNextPageTable(Get(mem[frame], IndexOf(va, k + 1)), 4 - k);
      if next.Some? {
        frame, k := next.value, k + 1;
      } else {
        found := false;
      }
    }
    MissingBelow(s, root, va, k);
    m := 3 - k;
  }

  lemma StepOrStop(s: Space, root: Frame, va: nat, k: nat)
    requires Tree(s, root, Root) && k <= 2 && Prefix(va, k) in s.at
    ensures Has(s, Prefix(va, k))
    ensures var next := GetNextPageTable(Get(s.mem[s.at[Prefix(va, k)]], IndexOf(va, k + 1)), 4 - k);
      if next.Some? then Prefix(va, k + 1) in s.at && next.value == s.at[Prefix(va, k + 1)] else Prefix(va, k + 1) !in s.at
  {
    NextInTree(s, root, Root, Prefix(va, k), IndexOf(va, k + 1));
    assert Linked(s, Prefix(va, k)) && (Prefix(va, k + 1) in s.at ==> Linked(s, Prefix(va, k + 1)));
    hide Tree, GetNextPageTable, IndexOf;
  }

  /** After any run the walk equals the flat map. The run breaks off only where the frames are used up: at a page for which more tables are missing. */
  method Run(t: PageTree, ghost f: Flat, ops: seq<Op>) returns (n: nat)
    requires t.Valid() && Agrees(t.mem, t.root, f) && AllPages(f)
    modifies t
    ensures t.Valid() && n <= |ops| && Agrees(t.mem, t.root, FlatRun(f, ops[..n]))
    ensures n < |ops| ==> OutOfFrames(t.at, t.free, ops[n])
  {
    hide Tree, Pool, Agrees, AllPages, FlatStep, Missing;
    n := 0;
    var starved := false;
    while n < |ops| && !starved
      invariant t.Valid() && n <= |ops| && (starved ==> n < |ops| && OutOfFrames(t.at, t.free, ops[n]))
      invariant Agrees(t.mem, t.root, FlatRun(f, ops[..n])) && AllPages(FlatRun(f, ops[..n]))
      decreases |ops| - n, !starved
    {
      if ops[n].Map? {
        var m := CountMissing(t.mem, t.at, t.root, ops[n].va);
        starved := |t.free| < m;
      }
      if !starved {
        assert ops[..n + 1][..n] == ops[..n];
        Perform(t, FlatRun(f, ops[..n]), ops[n]);
        n := n + 1;
      }
    }
  }
}
