/** Access rights along the walk, as in section 4.6 of Intel SDM volume 3A, and the frame GetPhysicalAddress reads off. */
module PageRights {
  import opened Basics
  import opened PageEntries
  import opened RadixTree
  import opened RadixUpdate
  import opened PageTables

  datatype Rights = Rights(write: bool, user: bool, noExecute: bool)

  function Own(e: Entry): Rights {
    Rights(Write(e), User(e), NoExecute(e))
  }

  /** The processor grants what every entry on the path grants, and forbids execution if any does. */
  function Restrict(e: Entry, r: Rights): Rights {
    Rights(Write(e) && r.write, User(e) && r.user, NoExecute(e) || r.noExecute)
  }

  function WalkRights(mem: map<Frame, Table>, frame: Frame, va: nat, k: nat): Option<Rights>
    decreases 4 - k
  {
    if k > 3 || frame !in mem then None
    else
      var e := Get(mem[frame], IndexOf(va, k + 1));
      if !Present(e) then None
      else if !IsTable(e, k + 1) then Some(Own(e))
      else
        var r := WalkRights(mem, Target(e), va, k + 1);
        if r.None? then None else Some(Restrict(e, r.value))
  }

  /** What the entry above the table of depth `k` grants; everything at the root. */
  ghost predicate Covers(s: Space, va: nat, k: nat, e: Entry) {
    k > 0 ==> Within(e, Slot(s, Prefix(va, k - 1), IndexOf(va, k)))
  }

  lemma CoversEntry(s: Space, root: Frame, va: nat, k: nat)
    requires Tree(s, root, Root) && k <= 3 && Prefix(va, k) in s.at
    ensures var e := Slot(s, Prefix(va, k), IndexOf(va, k + 1)); Present(e) ==> Covers(s, va, k, e)
  {
    assert EntryOk(s, Prefix(va, k), IndexOf(va, k + 1));
  }

  lemma TableBelow(s: Space, root: Frame, va: nat, k: nat)
    requires Tree(s, root, Root) && k <= 3 && Prefix(va, k) in s.at && IsTable(Slot(s, Prefix(va, k), IndexOf(va, k + 1)), k + 1)
    ensures var e := Slot(s, Prefix(va, k), IndexOf(va, k + 1));
      k < 3 && Has(s, Prefix(va, k + 1)) && Target(e) == s.at[Prefix(va, k + 1)] && !NoExecute(e)
  {
    assert EntryOk(s, Prefix(va, k), IndexOf(va, k + 1));
    assert Linked(s, Prefix(va, k + 1));
  }

  lemma RightsStep(mem: map<Frame, Table>, frame: Frame, va: nat, k: nat)
    requires k <= 3 && frame in mem
    ensures var e := Get(mem[frame], IndexOf(va, k + 1));
      WalkRights(mem, frame, va, k) ==
        if !Present(e) then None else if !IsTable(e, k + 1) then Some(Own(e))
        else var r := WalkRights(mem, Target(e), va, k + 1); if r.None? then None else Some(Restrict(e, r.value))
  {
  }

  /** The rights of the walk are those of the leaf alone. */
  lemma {:induction false} RightsFrom(s: Space, root: Frame, va: nat, k: nat)
    requires Tree(s, root, Root) && k <= 3 && Has(s, Prefix(va, k))
    ensures var w, r := Walk(s.mem, s.at[Prefix(va, k)], va, k), WalkRights(s.mem, s.at[Prefix(va, k)], va, k);
      if w.None? then r.None? else r == Some(Own(w.value.0)) && Covers(s, va, k, w.value.0)
    decreases 4 - k
  {
    hide Tree, Prefix, IndexOf, Present, IsTable, Write, User, NoExecute, Target, Walk, WalkRights;
    var e := Slot(s, Prefix(va, k), IndexOf(va, k + 1));
    CoversEntry(s, root, va, k);
    WalkStep(s.mem, s.at[Prefix(va, k)], va, k);
    RightsStep(s.mem, s.at[Prefix(va, k)], va, k);
    TablePresent(e, k + 1);
    if IsTable(e, k + 1) {
      TableBelow(s, root, va, k);
      RightsFrom(s, root, va, k + 1);
    }
  }

  /** After any run of mapping, remapping and unmapping: AND-ing and OR-ing along the path gives the leaf's flags. */
  lemma RightsExact(s: Space, root: Frame, va: nat)
    requires Tree(s, root, Root)
    ensures var w := Translate(s.mem, root, va); WalkRights(s.mem, root, va, 0) == if w.None? then None else Some(Own(w.value.0))
  {
    assert Linked(s, Root) && Prefix(va, 0) == Root;
    hide Tree, Walk, WalkRights;
    RightsFrom(s, root, va, 0);
  }

  /** The rights that flags ask for. */
  function Asks(flags: bv32): Rights {
    Rights(flags & 2 != 0, flags & 4 != 0, flags & 0x0800_0000 != 0)
  }

  /** Every leaf the mapping functions write has exactly these. */
  lemma OwnRights(phys: nat, raw: Entry, flags: bv32, d: nat)
    ensures Own(LeafEntry(phys, flags)) == Own(LargeEntry(phys, flags, d)) == Own(Reflagged(raw, flags)) == Asks(flags)
  {
    LeafEntryBits(phys, flags);
    LargeEntryBits(phys, flags, d);
    ReflaggedBits(raw, flags);
    hide LeafEntry, LargeEntry, Reflagged, Write, User, NoExecute;
  }

  /** What the processor grants at an address after a leaf was written for it. */
  lemma MappedRights(s: Space, root: Frame, mem0: map<Frame, Table>, va: nat, d: nat, x: Entry, flags: bv32)
    requires Tree(s, root, Root) && Mapped(mem0, s.mem, root, va, d, x) && Own(x) == Asks(flags)
    ensures Translate(s.mem, root, va) == Some((x, d)) && WalkRights(s.mem, root, va, 0) == Some(Asks(flags))
  {
    hide Tree, Translate, WalkRights, Own, Asks, Prefix;
    RightsExact(s, root, va);
  }

  /** An address with a 4 KiB leaf has a last table. */
  lemma SmallMapped(s: Space, root: Frame, va: nat)
    requires Tree(s, root, Root)
    ensures var w := Translate(s.mem, root, va); w.Some? && w.value.1 == 4 ==> Prefix(va, 3) in s.at
  {
    assert Linked(s, Root) && Prefix(va, 0) == Root;
    WalkOnlyLeaf(s, root, Root, va, 0);
    hide Tree, Walk;
  }

  /** The frame number of a leaf of depth `d`, without the bits below its size. */
  function LeafFrame(e: Entry, d: nat): nat {
    e.frame - e.frame % Pages(d)
  }

  /** What GetPhysicalAddress should return. */
  function Physical(w: Option<(Entry, nat)>): nat {
    if w.None? then 0 else LeafFrame(w.value.0, w.value.1)
  }

  /** One round of x86_64_GetPhysicalAddress agrees with one step of the walk. */
  lemma PhysicalStep(s: Space, root: Frame, va: nat, k: nat)
    requires Tree(s, root, Root) && k <= 3 && Has(s, Prefix(va, k))
    ensures var e, w := Get(s.mem[s.at[Prefix(va, k)]], IndexOf(va, k + 1)), Walk(s.mem, s.at[Prefix(va, k)], va, k);
      && (k == 3 ==> Physical(w) == e.frame)
      && (k < 3 && GetNextPageTable(e, 4 - k).Some? ==>
            Has(s, Prefix(va, k + 1)) && GetNextPageTable(e, 4 - k).value == s.at[Prefix(va, k + 1)]
            && w == Walk(s.mem, s.at[Prefix(va, k + 1)], va, k + 1))
      && (k < 3 && GetNextPageTable(e, 4 - k).None? ==>
            Physical(w) == if (k == 1 || k == 2) && PageSize(e) && Present(e) then LeafFrame(e, k + 1) else 0)
  {
    var q, i := Prefix(va, k), IndexOf(va, k + 1);
    var e := Slot(s, q, i);
    NextInTree(s, root, Root, q, i);
    assert EntryOk(s, q, i);
    WalkStep(s.mem, s.at[q], va, k);
    hide Tree, Walk, IndexOf, GetNextPageTable, LeafFrame;
  }

  /** x86_64_GetPhysicalAddress. */
  method GetPhysicalAddress(mem: map<Frame, Table>, ghost at: map<Path, Frame>, root: Frame, va: nat) returns (phys: nat)
    requires Tree(Space(mem, at), root, Root)
    ensures phys == Physical(Translate(mem, root, va))
  {
    ghost var s := Space(mem, at);
    var frame, k: nat := root, 0;
    StartDown(s, root, va, 0);
    assert Prefix(va, 0) == Root && Linked(s, Root);
    var done := false;
    phys := 0;
    hide Tree, Walk, Prefix, IndexOf, GetNextPageTable, PageSize, Present, LeafFrame, Descending, SameLeaves, Linked, Physical;
    while !done
      invariant k <= 3 && Has(s, Prefix(va, k)) && frame == at[Prefix(va, k)] && Translate(mem, root, va) == Walk(mem, frame, va, k)
      invariant done ==> phys == Physical(Translate(mem, root, va))
      decreases 3 - k, !done
    {
      PhysicalStep(s, root, va, k);
      var e := Get(mem[frame], IndexOf(va, k + 1));
      var next := GetNextPageTable(e, 4 - k);
      if k == 3 {
        phys, done := e.frame, true;
      } else if next.None? {
        phys := if (k == 1 || k == 2) && PageSize(e) && Present(e) then LeafFrame(e, k + 1) else 0;
        done := true;
      } else {
        frame, k := next.value, k + 1;
      }
    }
  }
}
