/** Page tables as a radix tree over physical frames, for four levels. */
module RadixTree {

  // The tables in memory, where each one hangs, and the walk of the processor: Intel SDM volume 3A, section 4.5.4.

  import opened Basics
  import opened PageEntries

  /** A physical frame, by its number. */
  type Frame = nat

  /** An index into a table. */
  type Index = nat

  /** The words of one table, by index; a word that was never written is 0. */
  type Table = map<Index, Entry>

  function Get(t: Table, i: Index): Entry {
    if i in t then t[i] else ZERO
  }

  function Store(t: Table, i: Index, x: Entry): Table {
    t[i := x]
  }

  /** A position in the tree: the root, or an index into the table at another position. */
  datatype Path = Root | Sub(up: Path, index: Index)

  function Depth(p: Path): nat {
    if p.Root? then 0 else Depth(p.up) + 1
  }

  /** The tables in memory, and the position of each table that is part of the tree. */
  datatype Space = Space(mem: map<Frame, Table>, at: map<Path, Frame>)

  /** An entry of depth `d` (1 for the root's entries) that points to a table. */
  predicate IsTable(e: Entry, d: nat) {
    Present(e) && d < 4 && !(d >= 2 && PageSize(e))
  }

  /** The table an entry points to. */
  function Target(e: Entry): Frame {
    e.frame
  }

  ghost predicate Has(s: Space, q: Path) {
    q in s.at && s.at[q] in s.mem
  }

  /** The word at an index of the table at a position. */
  ghost function Slot(s: Space, q: Path, i: Index): Entry {
    if Has(s, q) then Get(s.mem[s.at[q]], i) else ZERO
  }

  /** The table at `q` is where its parent's entry says. */
  ghost predicate Linked(s: Space, q: Path) {
    && Has(s, q) && Aligned(s.at[q]) && Depth(q) <= 3
    && (q.Sub? ==>
      && q.index < 512 && Has(s, q.up)
      && var e := Slot(s, q.up, q.index);
         IsTable(e, Depth(q)) && Target(e) == s.at[q] && !NoExecute(e))
  }

  /** An entry is zero or present, points to a table of the tree, and asks for no more than the entry above grants. */
  ghost predicate EntryOk(s: Space, q: Path, i: Index) {
    var e := Slot(s, q, i);
    && (e == ZERO || Present(e))
    && (IsTable(e, Depth(q) + 1) ==> Sub(q, i) in s.at)
    && (Present(e) && q.Sub? ==> Within(e, Slot(s, q.up, q.index)))
  }

  ghost predicate NonEmpty(s: Space, q: Path) {
    exists i: Index :: i < 512 && Present(Slot(s, q, i))
  }

  ghost predicate Injective(at: map<Path, Frame>) {
    forall q, r :: q in at && r in at && at[q] == at[r] ==> q == r
  }

  /** The tree; `open` is a table that may be empty for now. */
  ghost predicate Tree(s: Space, root: Frame, open: Path) {
    && Root in s.at && s.at[Root] == root && Injective(s.at)
    && (forall q :: q in s.at ==> Linked(s, q))
    && (forall q, i: Index :: q in s.at && i < 512 ==> EntryOk(s, q, i))
    && (forall q :: q in s.at && q.Sub? && q != open ==> NonEmpty(s, q))
  }

  // ---------- The walk ----------

  /** The index into the table of depth `k - 1` for a virtual page number. */
  function IndexOf(va: nat, k: nat): (i: Index)
    ensures i < 512
  {
    (if k == 1 then va / 134217728 else if k == 2 then va / 262144 else if k == 3 then va / 512 else va) % 512
  }

  /** Where the walk for an address is after `k` steps. */
  function Prefix(va: nat, k: nat): (p: Path)
    ensures Depth(p) == k
  {
    if k == 0 then Root else Sub(Prefix(va, k - 1), IndexOf(va, k))
  }

  /** The leaf entry the processor finds from the table at `frame`, and its depth: 4 for 4 KiB, 3 for 2 MiB, 2 for 1 GiB. */
  function Walk(mem: map<Frame, Table>, frame: Frame, va: nat, k: nat): Option<(Entry, nat)>
    decreases 4 - k
  {
    if k > 3 || frame !in mem then None
    else
      var e := Get(mem[frame], IndexOf(va, k + 1));
      if !Present(e) then None
      else if !IsTable(e, k + 1) then Some((e, k + 1))
      else Walk(mem, Target(e), va, k + 1)
  }

  /** The entry of depth `d` for an address is a leaf. */
  ghost predicate LeafFor(s: Space, va: nat, d: nat) {
    && 1 <= d <= 4 && Has(s, Prefix(va, d - 1))
    && var e := Slot(s, Prefix(va, d - 1), IndexOf(va, d)); Present(e) && !IsTable(e, d)
  }

  /** A table on the way to an address has all the tables above it. */
  lemma {:induction false} Chain(s: Space, root: Frame, open: Path, va: nat, j: nat, k: nat)
    requires Tree(s, root, open) && j <= k <= 4 && Prefix(va, k) in s.at
    ensures Has(s, Prefix(va, j)) && (j < k ==> IsTable(Slot(s, Prefix(va, j), IndexOf(va, j + 1)), j + 1))
    decreases k - j
  {
    hide Present, PageSize, Write, User, NoExecute, Aligned, IndexOf;
    assert Linked(s, Prefix(va, k));
    if j + 1 < k {
      Chain(s, root, open, va, j, k - 1);
    }
  }

  /** One step of the walk. */
  lemma WalkStep(mem: map<Frame, Table>, frame: Frame, va: nat, k: nat)
    requires k <= 3 && frame in mem
    ensures var e := Get(mem[frame], IndexOf(va, k + 1));
      Walk(mem, frame, va, k) == if !Present(e) then None else if IsTable(e, k + 1) then Walk(mem, Target(e), va, k + 1) else Some((e, k + 1))
  {
  }

  /** A table of the tree is the target of the entry above it. */
  lemma StepDown(s: Space, root: Frame, open: Path, va: nat, k: nat)
    requires Tree(s, root, open) && k <= 3 && Prefix(va, k + 1) in s.at
    ensures Has(s, Prefix(va, k)) && Has(s, Prefix(va, k + 1))
    ensures var e := Slot(s, Prefix(va, k), IndexOf(va, k + 1)); IsTable(e, k + 1) && Target(e) == s.at[Prefix(va, k + 1)]
  {
    assert Linked(s, Prefix(va, k + 1));
    hide Present, PageSize, Write, User, NoExecute, Aligned, IndexOf, Tree;
  }

  /** The walk ends at the leaf. */
  lemma {:induction false} WalkLeaf(s: Space, root: Frame, open: Path, va: nat, k: nat, d: nat)
    requires Tree(s, root, open) && k < d <= 4 && LeafFor(s, va, d) && Has(s, Prefix(va, k))
    ensures Walk(s.mem, s.at[Prefix(va, k)], va, k) == Some((Slot(s, Prefix(va, d - 1), IndexOf(va, d)), d))
    decreases 4 - k
  {
    hide Tree, Walk, Prefix, IsTable, Present, IndexOf, Target;
    WalkStep(s.mem, s.at[Prefix(va, k)], va, k);
    if k + 1 < d {
      Chain(s, root, open, va, k + 1, d - 1);
      StepDown(s, root, open, va, k);
      WalkLeaf(s, root, open, va, k + 1, d);
      TablePresent(Slot(s, Prefix(va, k), IndexOf(va, k + 1)), k + 1);
    }
  }

  lemma TablePresent(e: Entry, d: nat)
    ensures IsTable(e, d) ==> Present(e) && d < 4
  {
  }

  /** What the walk finds is a leaf of the tree. */
  lemma {:induction false} WalkOnlyLeaf(s: Space, root: Frame, open: Path, va: nat, k: nat)
    requires Tree(s, root, open) && k <= 3 && Has(s, Prefix(va, k))
    ensures var w := Walk(s.mem, s.at[Prefix(va, k)], va, k);
      w.Some? ==> k < w.value.1 <= 4 && LeafFor(s, va, w.value.1)
    decreases 4 - k
  {
    var e := Slot(s, Prefix(va, k), IndexOf(va, k + 1));
    assert EntryOk(s, Prefix(va, k), IndexOf(va, k + 1));
    assert Prefix(va, k + 1) == Sub(Prefix(va, k), IndexOf(va, k + 1));
    hide Tree, Walk, Prefix, IsTable, Present, IndexOf, Target;
    WalkStep(s.mem, s.at[Prefix(va, k)], va, k);
    TablePresent(e, k + 1);
    if IsTable(e, k + 1) {
      StepDown(s, root, open, va, k);
      WalkOnlyLeaf(s, root, open, va, k + 1);
    }
  }

  /** The translation of an address. */
  function Translate(mem: map<Frame, Table>, root: Frame, va: nat): Option<(Entry, nat)> {
    Walk(mem, root, va, 0)
  }

  /** Two trees with the same leaves for an address translate it alike. */
  lemma SameTranslation(s: Space, s': Space, root: Frame, open: Path, open': Path, va: nat)
    requires Tree(s, root, open) && Tree(s', root, open')
    requires forall d :: 1 <= d <= 4 ==> (LeafFor(s, va, d) <==> LeafFor(s', va, d))
    requires forall d :: 1 <= d <= 4 && LeafFor(s, va, d) ==>
      Slot(s, Prefix(va, d - 1), IndexOf(va, d)) == Slot(s', Prefix(va, d - 1), IndexOf(va, d))
    ensures Translate(s.mem, root, va) == Translate(s'.mem, root, va)
  {
    assert Linked(s, Root) && Linked(s', Root);
    hide Tree, Linked, LeafFor, Walk, Present, IndexOf, IsTable, Slot;
    WalkOnlyLeaf(s, root, open, va, 0);
    WalkOnlyLeaf(s', root, open', va, 0);
    var w, w' := Translate(s.mem, root, va), Translate(s'.mem, root, va);
    if w.Some? {
      WalkLeaf(s', root, open', va, 0, w.value.1);
      WalkLeaf(s, root, open, va, 0, w.value.1);
    } else if w'.Some? {
      WalkLeaf(s, root, open, va, 0, w'.value.1);
    }
  }
}
