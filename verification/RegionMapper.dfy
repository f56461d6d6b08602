/** kernel/src/arch/x86_64/Memory/PagingUtil.cpp: mapping a region with the largest pages that fit. */
module RegionMapper {
  import opened Basics
  import opened PageEntries
  import opened RadixTree
  import opened RadixUpdate
  import opened PageTables
  import opened PageTrees
  import opened PageRights
  import PageRuns

  /** The virtual page numbers that four levels of tables tell apart. */
  const SPACE: nat := 68719476736

  function Low(u: nat): nat { u % SPACE }

  // ---------- Which pages share an entry ----------

  /** The indexes of the first `k` levels as one number. */
  function Key(u: nat, k: nat): nat {
    if k == 0 then 0 else if k == 1 then Low(u) / 134217728 else if k == 2 then Low(u) / 262144 else if k == 3 then Low(u) / 512 else Low(u)
  }

  /** A page number in base 512. */
  lemma Digits(u: nat) returns (a: nat, b: nat, c: nat, d: nat)
    ensures a < 512 && b < 512 && c < 512 && d < 512
    ensures Low(u) == ((a * 512 + b) * 512 + c) * 512 + d
    ensures IndexOf(u, 1) == a && IndexOf(u, 2) == b && IndexOf(u, 3) == c && IndexOf(u, 4) == d
  {
    var u1 := u / 512;
    var u2 := u1 / 512;
    var u3 := u2 / 512;
    a, b, c, d := u3 % 512, u2 % 512, u1 % 512, u % 512;
    assert u == u1 * 512 + d && u1 == u2 * 512 + c && u2 == u3 * 512 + b && u3 == (u3 / 512) * 512 + a;
    assert u / 262144 == u2 && u / 134217728 == u3;
    LowIs(u, u3 / 512, ((a * 512 + b) * 512 + c) * 512 + d);
  }

  lemma LowIs(u: nat, q: nat, r: nat)
    requires u == q * 68719476736 + r && r < 68719476736
    ensures Low(u) == r
  {
  }

  lemma KeyStep(u: nat, k: nat)
    requires 1 <= k <= 4
    ensures Key(u, k) == 512 * Key(u, k - 1) + IndexOf(u, k)
  {
    var a, b, c, d := Digits(u);
    hide IndexOf, Low;
    assert Low(u) / 512 == (a * 512 + b) * 512 + c;
    assert Low(u) / 262144 == a * 512 + b;
    assert Low(u) / 134217728 == a;
  }

  lemma {:induction false} KeyPrefix(u: nat, v: nat, k: nat)
    requires k <= 4
    ensures Prefix(u, k) == Prefix(v, k) <==> Key(u, k) == Key(v, k)
    decreases k
  {
    if k > 0 {
      KeyStep(u, k);
      KeyStep(v, k);
      hide IndexOf, Key;
      KeyPrefix(u, v, k - 1);
    } else {
      assert Prefix(u, 0) == Prefix(v, 0);
    }
  }

  /** A page of depth `d` that begins at `v` covers the `Pages(d)` page numbers from there on. */
  lemma Covers(u: nat, v: nat, d: nat)
    requires 2 <= d <= 4 && v < SPACE && v % Pages(d) == 0
    ensures Prefix(u, d) == Prefix(v, d) <==> v <= Low(u) < v + Pages(d)
  {
    hide Prefix, Low;
    KeyPrefix(u, v, d);
    LowIs(v, 0, v);
    assert Key(u, d) == Low(u) / Pages(d) && Key(v, d) == v / Pages(d);
    hide Key, Pages;
    SameQuotient(Low(u), v, Pages(d));
  }

  lemma MulStep(q: int, r: int, b: nat)
    ensures q < r ==> q * b + b <= r * b
    ensures (q + 1) * b == q * b + b
  {
    if q < r {
      assert (r - q - 1) * b >= 0;
      assert (r - q - 1) * b == r * b - q * b - b;
    }
  }

  /** Quotient and remainder are unique. */
  lemma DivIs(x: nat, q: nat, r: nat, b: nat)
    requires b > 0 && x == q * b + r && r < b
    ensures x / b == q && x % b == r
  {
    assert x == (x / b) * b + x % b;
    MulStep(x / b, q, b);
    MulStep(q, x / b, b);
  }

  lemma SameQuotient(x: nat, v: nat, b: nat)
    requires b > 0 && v % b == 0
    ensures x / b == v / b <==> v <= x < v + b
  {
    var q, r := v / b, x / b;
    assert v == q * b && x == r * b + x % b;
    MulStep(q, r, b);
    MulStep(r, q, b);
  }

  // ---------- What a leaf means ----------

  /** x86_64_ConvertToLargePageFlags: the PAT bit moves from bit 7 to bit 12. */
  function ConvertToLargePageFlags(flags: bv32): bv32 {
    (flags & 0x0800_0F7F) | ((flags & 0x0000_0080) << 5)
  }

  /** The flags of a leaf in the places they have at level 1: for a large page, PAT moves back from bit 12 to bit 7. */
  function Attributes(e: Entry, d: nat): (bv12, bv12) {
    (if d == 4 then e.low else (e.low & 0xF7F) | (if e.frame % 2 == 1 then 0x80 else 0), e.high)
  }

  /** The leaf the region mapper writes at depth `d`. */
  function RegionLeaf(phys: nat, flags: bv32, d: nat): Entry {
    if d == 4 then LeafEntry(phys, flags) else LargeEntry(phys, ConvertToLargePageFlags(flags), d)
  }

  lemma ConvertBits(flags: bv32)
    ensures var large := ConvertToLargePageFlags(flags);
      && (large & 0x1000 != 0 <==> flags & 0x80 != 0) && NoExecuteBit(large) == NoExecuteBit(flags)
      && LowBits(large, 0xFFF) & 0x80 == 0 && ((LowBits(large, 0xFFF) | 1 | 0x80) & 0xF7F) == (LowBits(flags, 0xFFF) | 1) & 0xF7F
      && (large & 2 == flags & 2) && (large & 4 == flags & 4)
  {
  }

  lemma LowPat(flags: bv32)
    ensures ((LowBits(flags, 0xFFF) | 1) & 0xF7F) | (if flags & 0x80 != 0 then 0x80 else 0) == LowBits(flags, 0xFFF) | 1
  {
  }

  lemma RoundedFrame(phys: nat, bit: nat, b: nat)
    requires bit <= 1 && (b == 512 || b == 262144) && phys % b == 0
    ensures (phys + bit) - (phys + bit) % b == phys && (phys + bit) % 2 == bit
  {
    DivIs(phys + bit, phys / b, bit, b);
    DivIs(phys + bit, phys / b * (b / 2), bit, 2);
  }

  lemma LargeFrame(phys: nat, flags: bv32, d: nat)
    requires (d == 2 || d == 3) && phys % Pages(d) == 0 && phys < FRAMES
    ensures var e := LargeEntry(phys, flags, d); LeafFrame(e, d) == phys && (e.frame % 2 == 1 <==> flags & 0x1000 != 0)
  {
    assert phys % FRAMES == phys;
    var bit := if flags & 0x1000 != 0 then 1 else 0;
    hide LowBits, NoExecuteBit;
    assert LargeEntry(phys, flags, d).frame == phys + bit;
    RoundedFrame(phys, bit, Pages(d));
  }

  /** A large leaf means what the small ones in its place would mean. */
  lemma LeafMeaning(phys: nat, flags: bv32, d: nat)
    requires 2 <= d <= 4 && phys % Pages(d) == 0 && phys < FRAMES
    ensures var e := RegionLeaf(phys, flags, d);
      LeafFrame(e, d) == phys && Attributes(e, d) == Attributes(LeafEntry(0, flags), 4)
  {
    if d < 4 {
      var large := ConvertToLargePageFlags(flags);
      ConvertBits(flags);
      LowPat(flags);
      LargeFrame(phys, large, d);
      hide LowBits, NoExecuteBit, ConvertToLargePageFlags, LeafFrame;
    }
  }

  /** Where an address goes, and with which flags. */
  ghost predicate Reaches(w: Option<(Entry, nat)>, u: nat, frame: nat, flags: bv32) {
    && w.Some?
    && LeafFrame(w.value.0, w.value.1) + Low(u) % Pages(w.value.1) == frame
    && Attributes(w.value.0, w.value.1) == Attributes(LeafEntry(0, flags), 4)
  }

  /** `len` pages from `v0` on lead to the frames from `p0` on; every other translation is as before. */
  ghost predicate RegionMapped(mem: map<Frame, Table>, mem': map<Frame, Table>, root: Frame, v0: nat, p0: nat, len: nat, flags: bv32) {
    forall u: nat ::
      if v0 <= Low(u) < v0 + len then Reaches(Translate(mem', root, u), u, p0 + (Low(u) - v0), flags)
      else Translate(mem', root, u) == Translate(mem, root, u)
  }

  /** The pages from `v0` to `v0 + len` have no translation. */
  ghost predicate Clear(mem: map<Frame, Table>, root: Frame, v0: nat, len: nat) {
    forall u: nat :: v0 <= Low(u) < v0 + len ==> Translate(mem, root, u).None?
  }

  lemma RegionStep(mem0: map<Frame, Table>, mem: map<Frame, Table>, mem': map<Frame, Table>, root: Frame,
                   v0: nat, p0: nat, len: nat, flags: bv32, d: nat)
    requires 2 <= d <= 4 && RegionMapped(mem0, mem, root, v0, p0, len, flags)
    requires (v0 + len) % Pages(d) == 0 && (p0 + len) % Pages(d) == 0 && v0 + len < SPACE && p0 + len < FRAMES
    requires Mapped(mem, mem', root, v0 + len, d, RegionLeaf(p0 + len, flags, d))
    ensures RegionMapped(mem0, mem', root, v0, p0, len + Pages(d), flags)
  {
    var v, p := v0 + len, p0 + len;
    LeafMeaning(p, flags, d);
    forall u: nat
      ensures if v0 <= Low(u) < v0 + (len + Pages(d)) then Reaches(Translate(mem', root, u), u, p0 + (Low(u) - v0), flags)
        else Translate(mem', root, u) == Translate(mem0, root, u)
    {
      Covers(u, v, d);
      hide Translate, Prefix, Low, RegionLeaf, LeafFrame, Attributes, LeafEntry;
      if v <= Low(u) < v + Pages(d) {
        OffsetIn(Low(u), v, Pages(d));
      }
    }
  }

  lemma OffsetIn(x: nat, v: nat, b: nat)
    requires b > 0 && v % b == 0 && v <= x < v + b
    ensures x % b == x - v
  {
    SameQuotient(x, v, b);
    assert x == (x / b) * b + x % b && v == (v / b) * b;
  }

  // ---------- The largest page for every address ----------

  /** The whole physical pages of a region, and the page sizes the processor has. */
  datatype Offer = Offer(from: nat, pages: nat, has2MiB: bool, has1GiB: bool)

  /** The aligned block of `b` pages around page `x` lies in the region. */
  predicate Within(o: Offer, x: nat, b: nat)
    requires b > 0
  {
    o.from <= x / b * b && x / b * b + b <= o.from + o.pages
  }

  /** The depth of the largest page for the physical page `x`. */
  function Best(o: Offer, x: nat): nat {
    if o.has1GiB && Within(o, x, 262144) then 2 else if o.has2MiB && Within(o, x, 512) then 3 else 4
  }

  /** Every page of the region is mapped with the largest page there is for it. */
  ghost predicate LargestUsed(mem: map<Frame, Table>, root: Frame, v0: nat, p0: nat, len: nat, o: Offer) {
    forall u: nat :: v0 <= Low(u) < v0 + len ==> var w := Translate(mem, root, u); w.Some? && w.value.1 == Best(o, p0 + (Low(u) - v0))
  }

  /** The largest page for each physical page from `a` up to `b` is one of depth `d`. */
  ghost predicate Uses(o: Offer, a: nat, b: nat, d: nat) {
    forall x: nat :: a <= x < b ==> Best(o, x) == d
  }

  lemma LargestStep(mem: map<Frame, Table>, mem': map<Frame, Table>, root: Frame, v0: nat, p0: nat, len: nat, o: Offer, d: nat, e: Entry)
    requires 2 <= d <= 4 && LargestUsed(mem, root, v0, p0, len, o) && (v0 + len) % Pages(d) == 0 && v0 + len < SPACE
    requires Mapped(mem, mem', root, v0 + len, d, e) && Uses(o, p0 + len, p0 + len + Pages(d), d)
    ensures LargestUsed(mem', root, v0, p0, len + Pages(d), o)
  {
    forall u: nat | v0 <= Low(u) < v0 + (len + Pages(d))
      ensures var w := Translate(mem', root, u); w.Some? && w.value.1 == Best(o, p0 + (Low(u) - v0))
    {
      Covers(u, v0 + len, d);
      hide Translate, Prefix, Low, Best, Pages;
    }
  }

  /** A multiple of `b` is at most `x` exactly if it is at most the last one before `x`. */
  lemma Quotient(x: nat, k: nat, b: nat)
    requires b > 0
    ensures k * b <= x <==> k <= x / b
  {
    assert x == (x / b) * b + x % b;
    MulStep(x / b, k, b);
    MulStep(k, x / b, b);
  }

  /** The blocks inside the region are those between its first and its last boundary. */
  lemma WithinIff(o: Offer, x: nat, b: nat)
    requires b > 0
    ensures Within(o, x, b) <==> RoundUp(o.from, b) <= x < RoundDown(o.from + o.pages, b)
  {
    var q, c, e := x / b, (o.from + b - 1) / b, (o.from + o.pages) / b;
    Quotient(x, c, b);
    Quotient(x, e, b);
    Quotient(o.from + b - 1, q + 1, b);
    Quotient(o.from + o.pages, q + 1, b);
    MulStep(q, q, b);
  }

  lemma TooShort(o: Offer, x: nat, b: nat)
    requires b > o.pages
    ensures !Within(o, x, b)
  {
  }

  // ---------- An empty stretch has no tables ----------

  lemma LastTableUsed(s: Space, root: Frame, va: nat) returns (u: nat)
    requires Tree(s, root, Root) && Prefix(va, 3) in s.at
    ensures Prefix(u, 3) == Prefix(va, 3) && Translate(s.mem, root, u).Some?
  {
    var q := Prefix(va, 3);
    assert NonEmpty(s, q) && Linked(s, q);
    var i: Index :| i < 512 && Present(Slot(s, q, i));
    u := PageRuns.Sibling(va, i);
    assert Prefix(u, 3) == q && IndexOf(u, 4) == i by {
      PageRuns.SiblingIndex(va, i);
    }
    assert LeafFor(s, u, 4);
    hide Tree, Translate, Prefix, LeafFor;
    WalkLeafRoot(s, root, Root, u, 4);
  }

  lemma SiblingTable(va: nat, i: Index) returns (u: nat)
    requires i < 512
    ensures Prefix(u, 2) == Prefix(va, 2) && IndexOf(u, 3) == i
  {
    var q := va / 262144;
    u := q * 262144 + i * 512;
    DivIs(u, q, i * 512, 262144);
    DivIs(u, q * 512 + i, 0, 512);
    DivIs(q * 512 + i, q, i, 512);
    DivIs(u, q / 512, (q % 512) * 262144 + i * 512, 134217728);
    DivIs(va, q / 512, (q % 512) * 262144 + va % 262144, 134217728);
    assert Prefix(u, 0) == Prefix(va, 0);
    assert Prefix(u, 1) == Prefix(va, 1);
  }

  lemma MiddleTableUsed(s: Space, root: Frame, va: nat) returns (u: nat)
    requires Tree(s, root, Root) && Prefix(va, 2) in s.at
    ensures Prefix(u, 2) == Prefix(va, 2) && Translate(s.mem, root, u).Some?
  {
    var q := Prefix(va, 2);
    assert NonEmpty(s, q) && Linked(s, q);
    var i: Index :| i < 512 && Present(Slot(s, q, i));
    u := SiblingTable(va, i);
    assert EntryOk(s, q, i) && Prefix(u, 3) == Sub(q, i);
    if IsTable(Slot(s, q, i), 3) {
      var w := LastTableUsed(s, root, u);
      assert Prefix(w, 3) == Sub(Prefix(w, 2), IndexOf(w, 3));
      u := w;
    } else {
      assert LeafFor(s, u, 3);
      hide Tree, Translate, Prefix, LeafFor;
      WalkLeafRoot(s, root, Root, u, 3);
    }
  }

  /** Where nothing is mapped, a page of any size can be. */
  lemma ClearCanMap(s: Space, root: Frame, va: nat, d: nat)
    requires Tree(s, root, Root) && 2 <= d <= 4 && forall u: nat :: Prefix(u, d) == Prefix(va, d) ==> Translate(s.mem, root, u).None?
    ensures CanMap(s, va, d)
  {
    assert Prefix(va, 4) in s.at ==> Linked(s, Prefix(va, 4));
    hide Tree, Translate, LeafFor;
    forall c: nat | 1 <= c < d ensures !LeafFor(s, va, c) {
      if LeafFor(s, va, c) {
        WalkLeafRoot(s, root, Root, va, c);
      }
    }
    if Prefix(va, d) in s.at {
      if d == 3 {
        var u := LastTableUsed(s, root, va);
      } else if d == 2 {
        var u := MiddleTableUsed(s, root, va);
      }
    }
  }

  // ---------- The loops ----------

  /** The tables that pages of depth `d` need, for the virtual pages from `a` up to `b`. */
  ghost function SpanTables(a: nat, b: nat, d: nat): set<Path> {
    set u: nat, c: nat | a <= u < b && 1 <= c < d :: Prefix(u, c)
  }

  lemma InSpanTables(a: nat, b: nat, d: nat, u: nat)
    requires a <= u < b
    ensures OnPath(u, d) <= SpanTables(a, b, d)
  {
    hide Prefix;
  }

  /** There is a frame for each table of `tables` that does not exist yet. */
  ghost predicate Enough(tables: set<Path>, at: map<Path, Frame>, free: set<Frame>) {
    Left(tables, at.Keys) <= |free|
  }

  ghost function Left(tables: set<Path>, keys: set<Path>): nat {
    |tables - keys|
  }

  lemma TakeOne<T>(tables: set<T>, keys: set<T>, x: T)
    requires x in tables && x !in keys
    ensures |tables - (keys + {x})| == |tables - keys| - 1
  {
    assert tables - (keys + {x}) == (tables - keys) - {x};
  }

  lemma AddKnown<T>(keys: set<T>, more: set<T>, x: T)
    requires x in keys
    ensures keys + (more + {x}) == keys + more
  {
  }

  /** The tables a mapping adds are no longer missing. */
  lemma {:induction false} PathAdded(tables: set<Path>, at: map<Path, Frame>, u: nat, d: nat)
    requires 1 <= d && OnPath(u, d) <= tables
    ensures Left(tables, at.Keys + OnPath(u, d)) + Missing(at, u, d) == Left(tables, at.Keys)
    decreases d
  {
    hide Prefix, OnPath, Left;
    if d == 1 {
      OnPathNext(u, 0);
      Absorb(at.Keys, {});
    } else {
      PathLast(tables, at, u, d);
      PathAdded(tables, at, u, d - 1);
    }
  }

  lemma LeftLast(tables: set<Path>, keys: set<Path>, path: set<Path>, x: Path)
    requires path + {x} <= tables && x !in path
    ensures Left(tables, keys + (path + {x})) == Left(tables, keys + path) - (if x in keys then 0 else 1)
  {
    if x in keys {
      AddKnown(keys, path, x);
    } else {
      Associate(keys, path, {x});
      TakeOne(tables, keys + path, x);
    }
  }

  lemma PathLast(tables: set<Path>, at: map<Path, Frame>, u: nat, d: nat)
    requires 2 <= d && OnPath(u, d) <= tables
    ensures OnPath(u, d - 1) <= tables
    ensures Left(tables, at.Keys + OnPath(u, d)) == Left(tables, at.Keys + OnPath(u, d - 1)) - (if Prefix(u, d - 1) in at then 0 else 1)
  {
    hide Prefix, OnPath, Left;
    OnPathNext(u, d - 2);
    OffPath(u, d - 1);
    LeftLast(tables, at.Keys, OnPath(u, d - 1), Prefix(u, d - 1));
  }

  /** What a call of the mapping function for pages of depth `d` does. */
  ghost predicate Called(s: Space, s': Space, root: Frame, va: nat, d: nat, x: Entry, ok: bool) {
    && (ok <==> CanMap(s, va, d)) && s'.at.Keys == s.at.Keys + (if ok then OnPath(va, d) else {})
    && if ok then Mapped(s.mem, s'.mem, root, va, d, x) else SameWalks(s.mem, s'.mem, root)
  }

  /** One call of the mapping function for pages of depth `d`. */
  method MapOne(t: PageTree, v: nat, p: nat, flags: bv32, d: nat) returns (ghost ok: bool)
    requires t.Valid() && 2 <= d <= 4 && (CanMap(Space(t.mem, t.at), v, d) ==> |t.free| >= Missing(t.at, v, d))
    modifies t
    ensures t.Valid() && Called(old(Space(t.mem, t.at)), Space(t.mem, t.at), t.root, v, d, RegionLeaf(p, flags, d), ok)
    ensures |t.free| == |old(t.free)| - (if ok then Missing(old(t.at), v, d) else 0)
  {
    hide Tree, Pool, CanMap, Mapped, SameWalks, LeafEntry, LargeEntry, OnPath, Missing;
    if d == 4 {
      ok := t.MapPage(v, p, flags);
    } else if d == 3 {
      ok := t.Map2MiBPage(v, p, ConvertToLargePageFlags(flags));
    } else {
      ok := t.Map1GiBPage(v, p, ConvertToLargePageFlags(flags));
    }
  }

  /** The region is mapped up to `i`. */
  ghost predicate Progress(s: Space, root: Frame, mem0: map<Frame, Table>, v0: nat, p0: nat, i: nat, flags: bv32, o: Offer) {
    Tree(s, root, Root) && p0 <= i && RegionMapped(mem0, s.mem, root, v0, p0, i - p0, flags) && LargestUsed(s.mem, root, v0, p0, i - p0, o)
  }

  lemma StillClear(s: Space, mem0: map<Frame, Table>, root: Frame, v0: nat, p0: nat, len: nat, total: nat, flags: bv32, d: nat)
    requires 2 <= d <= 4 && Tree(s, root, Root) && RegionMapped(mem0, s.mem, root, v0, p0, len, flags) && Clear(mem0, root, v0, total)
    requires len + Pages(d) <= total && (v0 + len) % Pages(d) == 0 && v0 + total <= SPACE
    ensures CanMap(s, v0 + len, d)
  {
    hide Tree, CanMap, Translate;
    forall u: nat | Prefix(u, d) == Prefix(v0 + len, d) ensures Translate(s.mem, root, u).None? {
      Covers(u, v0 + len, d);
    }
    ClearCanMap(s, root, v0 + len, d);
  }

  lemma NextBlock(i: nat, to: nat, b: nat)
    requires b > 0 && i % b == 0 && to % b == 0 && i < to
    ensures i + b <= to && (i + b) % b == 0
  {
    var q, r := i / b, to / b;
    assert i == q * b && to == r * b;
    MulStep(q, r, b);
    MulStep(r, q, b);
    DivIs(i + b, q + 1, 0, b);
  }

  /** The virtual address of an aligned physical one is aligned exactly if the two ends of the region are congruent. */
  lemma ShiftedBlock(v0: nat, p0: nat, i: nat, b: nat)
    requires b > 0 && i % b == 0 && p0 <= i
    ensures (v0 + (i - p0)) % b == 0 <==> v0 % b == p0 % b
  {
    var x, y, q := v0 / b, p0 / b, i / b;
    assert v0 == x * b + v0 % b && p0 == y * b + p0 % b && i == q * b;
    assert (x + (q - y)) * b == x * b + q * b - y * b;
    RestIs(v0 + (i - p0), x + (q - y), v0 % b, p0 % b, b);
  }

  lemma RestIs(z: nat, k: int, r: nat, t: nat, b: nat)
    requires z == k * b + r - t && r < b && t < b
    ensures z % b == 0 <==> r == t
  {
    MulStep(k, 0, b);
    MulStep(k - 1, 0, b);
    if r >= t {
      DivIs(z, k, r - t, b);
    } else {
      DivIs(z, k - 1, b + r - t, b);
    }
  }

  /** One round of a loop over pages that are aligned. */
  lemma SpanStep(s: Space, s': Space, ok: bool, root: Frame, mem0: map<Frame, Table>, v0: nat, p0: nat, i: nat, total: nat, flags: bv32, o: Offer, d: nat)
    requires 2 <= d <= 4 && Progress(s, root, mem0, v0, p0, i, flags, o) && Clear(mem0, root, v0, total) && Tree(s', root, Root)
    requires i + Pages(d) <= p0 + total && v0 + total <= SPACE && p0 + total <= FRAMES && i % Pages(d) == 0 && v0 % Pages(d) == p0 % Pages(d)
    requires Uses(o, i, i + Pages(d), d) && Called(s, s', root, v0 + (i - p0), d, RegionLeaf(i, flags, d), ok)
    ensures Progress(s', root, mem0, v0, p0, i + Pages(d), flags, o)
  {
    hide Tree, RegionMapped, LargestUsed, Uses, Clear, CanMap, Mapped, RegionLeaf, Pages, Low, Prefix, OnPath;
    ShiftedBlock(v0, p0, i, Pages(d));
    PagesPositive(d);
    StillClear(s, mem0, root, v0, p0, i - p0, total, flags, d);
    RegionStep(mem0, s.mem, s'.mem, root, v0, p0, i - p0, flags, d);
    LargestStep(s.mem, s'.mem, root, v0, p0, i - p0, o, d, RegionLeaf(i, flags, d));
  }

  lemma PagesPositive(d: nat)
    ensures Pages(d) > 0
  {
  }

  // ---------- Large pages at virtual addresses that are not aligned ----------

  /** The page `w` of the region does not lead to its frame, and the tables above its page of depth `d` exist. */
  ghost predicate Lost(s: Space, root: Frame, v0: nat, p0: nat, flags: bv32, w: nat, d: nat) {
    && Tree(s, root, Root) && v0 <= w < SPACE && 2 <= d <= 3 && !Reaches(Translate(s.mem, root, w), w, p0 + (w - v0), flags)
    && forall c: nat :: 1 <= c < d ==> Prefix(w, c) in s.at
  }

  /** A large page leads an address inside it to a frame after its first. */
  lemma WrongFrame(phys: nat, flags: bv32, d: nat, w: nat)
    requires 2 <= d <= 3 && phys % Pages(d) == 0 && phys < FRAMES && w < SPACE && w % Pages(d) != 0
    ensures !Reaches(Some((RegionLeaf(phys, flags, d), d)), w, phys, flags)
  {
    LeafMeaning(phys, flags, d);
    LowIs(w, 0, w);
    hide Low, RegionLeaf, LeafFrame, Attributes, Pages;
  }

  lemma NotReached(w: nat, frame: nat, flags: bv32)
    ensures !Reaches(None, w, frame, flags)
  {
  }

  /** Where the walk finds nothing and no page can be mapped, there is a table in its place. */
  lemma TableInPlace(s: Space, root: Frame, va: nat, d: nat, c: nat)
    requires Tree(s, root, Root) && 2 <= d <= 4 && Translate(s.mem, root, va).None? && !CanMap(s, va, d) && c <= d
    ensures Prefix(va, c) in s.at
  {
    hide Translate, Tree, Prefix, LeafFor;
    if x: nat :| 1 <= x < d && LeafFor(s, va, x) {
      WalkLeafRoot(s, root, Root, va, x);
    } else {
      Chain(s, root, Root, va, c, d);
    }
  }

  lemma NotYet(mem0: map<Frame, Table>, mem: map<Frame, Table>, root: Frame, v0: nat, p0: nat, len: nat, total: nat, flags: bv32)
    requires RegionMapped(mem0, mem, root, v0, p0, len, flags) && Clear(mem0, root, v0, total) && len < total && v0 + total <= SPACE
    ensures Translate(mem, root, v0 + len).None?
  {
    LowIs(v0 + len, 0, v0 + len);
    hide Translate, Low;
  }

  /** The first round of a loop over large pages that are not aligned: its first page is lost. */
  lemma LoseStep(s: Space, s': Space, ok: bool, root: Frame, mem0: map<Frame, Table>, v0: nat, p0: nat, i: nat, total: nat, flags: bv32, o: Offer, d: nat)
    requires 2 <= d <= 3 && Progress(s, root, mem0, v0, p0, i, flags, o) && Clear(mem0, root, v0, total) && Tree(s', root, Root)
    requires i < p0 + total && v0 + total <= SPACE && p0 + total <= FRAMES && i % Pages(d) == 0 && v0 % Pages(d) != p0 % Pages(d)
    requires Called(s, s', root, v0 + (i - p0), d, RegionLeaf(i, flags, d), ok)
    ensures Lost(s', root, v0, p0, flags, v0 + (i - p0), d)
  {
    hide Tree, RegionMapped, LargestUsed, Clear, CanMap, RegionLeaf, Pages, Low, Prefix, Translate, Reaches;
    PagesPositive(d);
    ShiftedBlock(v0, p0, i, Pages(d));
    var w := v0 + (i - p0);
    NotYet(mem0, s.mem, root, v0, p0, i - p0, total, flags);
    WrongFrame(i, flags, d, w);
    NotReached(w, i, flags);
    forall c: nat | 1 <= c < d ensures Prefix(w, c) in s'.at {
      if ok {
        assert Prefix(w, c) in OnPath(w, d);
      } else {
        TableInPlace(s, root, w, d, c);
      }
      assert Prefix(w, c) in s'.at.Keys;
    }
  }

  /** Later addresses share no page of this size, or a smaller one, with it. */
  lemma LaterBlock(w: nat, va: nat, d: nat, c: nat)
    requires 2 <= d <= 3 && d <= c <= 4 && w + Pages(d) <= va < SPACE
    ensures Prefix(w, c) != Prefix(va, c)
  {
    hide Prefix;
    KeyPrefix(w, va, c);
    LowIs(w, 0, w);
    LowIs(va, 0, va);
    assert 0 < Pages(c) <= Pages(d) && Key(w, c) == w / Pages(c) && Key(va, c) == va / Pages(c);
    hide Key, Pages;
    var b, q, r := Pages(c), w / Pages(c), va / Pages(c);
    assert w == q * b + w % b && va == r * b + va % b;
  }

  /** No later call reaches a lost page. */
  lemma LostStep(s: Space, s': Space, ok: bool, root: Frame, v0: nat, p0: nat, flags: bv32, w: nat, d: nat, va: nat, c: nat, x: Entry)
    requires Lost(s, root, v0, p0, flags, w, d) && Tree(s', root, Root) && 2 <= c <= 4 && w + Pages(d) <= va < SPACE
    requires Called(s, s', root, va, c, x, ok)
    ensures Lost(s', root, v0, p0, flags, w, d)
  {
    hide Tree, Translate, Prefix, Pages, Reaches, OnPath;
    if c >= d {
      LaterBlock(w, va, d, c);
    } else if Prefix(w, c) == Prefix(va, c) {
      assert !CanMap(s, va, c);
    }
    hide CanMap;
    forall k: nat | 1 <= k < d ensures Prefix(w, k) in s'.at {
      assert Prefix(w, k) in s.at.Keys && Prefix(w, k) in s'.at.Keys;
    }
  }

  /** What a loop needs and keeps: all is well up to `i`, or the page `bad.0` is lost since a page of depth `bad.1` was tried there. */
  ghost predicate Going(s: Space, root: Frame, mem0: map<Frame, Table>, v0: nat, p0: nat, i: nat, flags: bv32, o: Offer, bad: Option<(nat, nat)>) {
    if bad.None? then Progress(s, root, mem0, v0, p0, i, flags, o)
    else Lost(s, root, v0, p0, flags, bad.value.0, bad.value.1) && p0 <= i && bad.value.0 + Pages(bad.value.1) <= v0 + (i - p0)
  }

  /** The first page that a loop from `from` up to `to` loses. */
  function Losing(v0: nat, p0: nat, from: nat, to: nat, d: nat, bad: Option<(nat, nat)>): Option<(nat, nat)> {
    if bad.None? && p0 <= from < to && v0 % Pages(d) != p0 % Pages(d) then Some((v0 + (from - p0), d)) else bad
  }

  lemma SmallAligned(v0: nat, p0: nat, d: nat)
    requires d == 4
    ensures v0 % Pages(d) == p0 % Pages(d)
  {
  }

  lemma AnyStep(s: Space, s': Space, ok: bool, root: Frame, mem0: map<Frame, Table>, v0: nat, p0: nat, i: nat, to: nat, total: nat, flags: bv32, o: Offer, d: nat,
                bad: Option<(nat, nat)>)
    requires Going(s, root, mem0, v0, p0, i, flags, o, bad) && Clear(mem0, root, v0, total) && Tree(s', root, Root) && 2 <= d <= 4
    requires p0 <= i < to <= p0 + total && v0 + total <= SPACE && p0 + total <= FRAMES && i % Pages(d) == 0 && to % Pages(d) == 0
    requires Uses(o, i, to, d) && Called(s, s', root, v0 + (i - p0), d, RegionLeaf(i, flags, d), ok)
    ensures Going(s', root, mem0, v0, p0, i + Pages(d), flags, o, Losing(v0, p0, i, to, d, bad))
    ensures i + Pages(d) <= to && (i + Pages(d)) % Pages(d) == 0
  {
    hide Progress, Lost, Clear, Tree, Called, RegionLeaf, Pages, Best;
    PagesPositive(d);
    if d == 4 {
      SmallAligned(v0, p0, d);
    }
    NextBlock(i, to, Pages(d));
    if bad.Some? {
      LostStep(s, s', ok, root, v0, p0, flags, bad.value.0, bad.value.1, v0 + (i - p0), d, RegionLeaf(i, flags, d));
    } else if v0 % Pages(d) == p0 % Pages(d) {
      SpanStep(s, s', ok, root, mem0, v0, p0, i, total, flags, o, d);
    } else {
      LoseStep(s, s', ok, root, mem0, v0, p0, i, total, flags, o, d);
    }
  }

  /** The stretch from physical page `from` to `to` of the region can be cut into pages of depth `d`. */
  predicate Span(v0: nat, p0: nat, from: nat, to: nat, total: nat, d: nat) {
    && 2 <= d <= 4 && p0 <= from <= to <= p0 + total && v0 + total <= SPACE && p0 + total <= FRAMES
    && from % Pages(d) == 0 && to % Pages(d) == 0
  }

  lemma EnoughLeft(tables: set<Path>, at: map<Path, Frame>, at': map<Path, Frame>, free: set<Frame>, free': set<Frame>, u: nat, d: nat, ok: bool)
    requires 1 <= d && OnPath(u, d) <= tables && Enough(tables, at, free)
    ensures |free| >= Missing(at, u, d)
    ensures at'.Keys == at.Keys + (if ok then OnPath(u, d) else {}) && |free'| == |free| - (if ok then Missing(at, u, d) else 0) ==> Enough(tables, at', free')
  {
    hide OnPath, Missing, Left;
    PathAdded(tables, at, u, d);
    if !ok {
      Absorb(at.Keys, {});
    }
  }

  /** A loop that maps with pages of one size, from physical page `from` up to `to`. */
  method MapSpan(t: PageTree, ghost mem0: map<Frame, Table>, v0: nat, p0: nat, from: nat, to: nat, ghost total: nat, flags: bv32, ghost o: Offer, d: nat, ghost tables: set<Path>,
                 ghost bad: Option<(nat, nat)>)
    requires t.Valid() && Going(Space(t.mem, t.at), t.root, mem0, v0, p0, from, flags, o, bad) && Clear(mem0, t.root, v0, total) && Span(v0, p0, from, to, total, d)
    requires SpanTables(v0 + (from - p0), v0 + (to - p0), d) <= tables && Enough(tables, t.at, t.free) && Uses(o, from, to, d)
    modifies t
    ensures t.Valid() && Going(Space(t.mem, t.at), t.root, mem0, v0, p0, to, flags, o, Losing(v0, p0, from, to, d, bad)) && Enough(tables, t.at, t.free)
  {
    hide Going, Clear, Uses, SpanTables, Enough, OnPath, Missing, Called, RegionLeaf, Tree, Pool, CanMap, Pages, Losing;
    PagesPositive(d);
    var i := from;
    ghost var now := bad;
    while i < to
      invariant from <= i <= to && i % Pages(d) == 0 && t.Valid() && Enough(tables, t.at, t.free)
      invariant now == if i == from then bad else Losing(v0, p0, from, to, d, bad)
      invariant Going(Space(t.mem, t.at), t.root, mem0, v0, p0, i, flags, o, now)
    {
      ghost var s, free := Space(t.mem, t.at), t.free;
      InSpanTables(v0 + (from - p0), v0 + (to - p0), d, v0 + (i - p0));
      EnoughLeft(tables, s.at, s.at, free, free, v0 + (i - p0), d, false);
      ghost var ok := MapOne(t, v0 + (i - p0), i, flags, d);
      CalledKeys(s, Space(t.mem, t.at), t.root, v0 + (i - p0), d, RegionLeaf(i, flags, d), ok);
      EnoughLeft(tables, s.at, t.at, free, t.free, v0 + (i - p0), d, ok);
      FewerUses(o, from, i, to, d);
      AnyStep(s, Space(t.mem, t.at), ok, t.root, mem0, v0, p0, i, to, total, flags, o, d, now);
      LosingOnce(v0, p0, from, i, to, d, bad);
      now, i := Losing(v0, p0, from, to, d, bad), i + Pages(d);
    }
    LosesNothing(v0, p0, from, to, d, bad);
  }

  lemma FewerUses(o: Offer, from: nat, i: nat, to: nat, d: nat)
    requires Uses(o, from, to, d) && from <= i
    ensures Uses(o, i, to, d)
  {
  }

  lemma LosesNothing(v0: nat, p0: nat, from: nat, to: nat, d: nat, bad: Option<(nat, nat)>)
    ensures from >= to ==> Losing(v0, p0, from, to, d, bad) == bad
  {
  }

  lemma CalledKeys(s: Space, s': Space, root: Frame, va: nat, d: nat, x: Entry, ok: bool)
    requires Called(s, s', root, va, d, x, ok)
    ensures s'.at.Keys == s.at.Keys + (if ok then OnPath(va, d) else {})
  {
  }

  lemma LosingOnce(v0: nat, p0: nat, from: nat, i: nat, to: nat, d: nat, bad: Option<(nat, nat)>)
    requires p0 <= from <= i < to
    ensures Losing(v0, p0, i, to, d, if i == from then bad else Losing(v0, p0, from, to, d, bad)) == Losing(v0, p0, from, to, d, bad)
  {
  }

  // ---------- MapRegionWithLargestPages ----------

  function RoundUp(x: nat, b: nat): (r: nat)
    requires b > 0
  {
    (x + b - 1) / b * b
  }

  function RoundDown(x: nat, b: nat): nat
    requires b > 0
  {
    x / b * b
  }

  lemma RoundDownIs(x: nat, b: nat)
    requires b > 0
    ensures RoundDown(x, b) == x - x % b && RoundDown(x, b) % b == 0
  {
    DivIs(RoundDown(x, b), x / b, 0, b);
  }

  lemma RoundUpIs(x: nat, b: nat)
    requires b > 0
    ensures RoundUp(x, b) == if x % b == 0 then x else x - x % b + b
    ensures RoundUp(x, b) % b == 0
  {
    var q, r := x / b, x % b;
    assert x == q * b + r;
    if r == 0 {
      DivIs(x + b - 1, q, b - 1, b);
      DivIs(q * b, q, 0, b);
    } else {
      assert (q + 1) * b == q * b + b;
      DivIs(x + b - 1, q + 1, r - 1, b);
      DivIs((q + 1) * b, q + 1, 0, b);
    }
  }

  lemma Rounded(x: nat, len: nat, b: nat)
    requires b > 0 && len >= b
    ensures x <= RoundUp(x, b) <= RoundDown(x + len, b) <= x + len
    ensures RoundUp(x, b) % b == 0 && RoundDown(x + len, b) % b == 0
  {
    RoundUpIs(x, b);
    RoundDownIs(x + len, b);
    hide RoundUp, RoundDown;
    var q, r := x / b, (x + len) / b;
    assert x == q * b + x % b && x + len == r * b + (x + len) % b;
    MulStep(r, q, b);
    MulStep(q, r, b);
    MulStep(q + 1, r, b);
  }

  /** A multiple of the large block is one of the small block. */
  lemma Multiple(x: nat)
    requires x % 262144 == 0
    ensures x % 512 == 0
  {
    DivIs(x, x / 262144 * 512, 0, 512);
  }

  lemma RoundedTwice(x: nat, len: nat)
    requires len >= 262144
    ensures RoundUp(x, 512) <= RoundUp(x, 262144) && RoundDown(x + len, 262144) <= RoundDown(x + len, 512)
    ensures RoundUp(x, 262144) % 512 == 0 && RoundDown(x + len, 262144) % 512 == 0
  {
    RoundUpIs(x, 512);
    RoundUpIs(x, 262144);
    RoundDownIs(x + len, 512);
    RoundDownIs(x + len, 262144);
    Multiple(RoundUp(x, 262144));
    Multiple(RoundDown(x + len, 262144));
    hide RoundUp, RoundDown;
    SmallerRest(x);
    SmallerRest(x + len);
  }

  lemma SmallerRest(x: nat)
    ensures x % 262144 % 512 == x % 512 && x % 512 <= x % 262144 && (x % 262144 != 0 && x % 512 != 0 ==> 512 - x % 512 <= 262144 - x % 262144)
  {
    var r := x % 262144;
    var a, c := r / 512, r % 512;
    assert r == a * 512 + c && a <= 511;
    DivIs(x, x / 262144 * 512 + a, c, 512);
  }

  /** The sizes of the pages a region is mapped with: the depth of the largest. */
  function Largest(size: nat, has2MiB: bool, has1GiB: bool): (d: nat)
    ensures 2 <= d <= 4
  {
    if (!has2MiB && !has1GiB) || size < 0x20_0000 || (size < 0x4000_0000 && !has2MiB) then 4
    else if (has2MiB && !has1GiB) || size < 0x4000_0000 then 3
    else 2
  }

  /** DIV_ROUNDUP(size, PAGE_SIZE). */
  function PageCount(size: nat): nat {
    (size + 4095) / 4096
  }

  /** The tables that mapping around a middle of large pages needs. */
  ghost function TablesAround(v: nat, p: nat, size: nat, d: nat): set<Path> {
    var b, n := Pages(d), PageCount(size);
    var start, end := RoundUp(p, b), RoundDown(p + size / 4096, b);
    if p <= start && p <= end then SpanTables(v, v + (start - p), 4) + SpanTables(v + (start - p), v + (end - p), d) + SpanTables(v + (end - p), v + n, 4)
    else {}
  }

  ghost function TablesOfBoth(v: nat, p: nat, size: nat): set<Path> {
    var n := PageCount(size);
    var s2, s1, e1, e2 := RoundUp(p, 512), RoundUp(p, 262144), RoundDown(p + size / 4096, 262144), RoundDown(p + size / 4096, 512);
    if p <= s2 && p <= s1 && p <= e1 && p <= e2 then
      SpanTables(v, v + (s2 - p), 4) + SpanTables(v + (s2 - p), v + (s1 - p), 3) + SpanTables(v + (s1 - p), v + (e1 - p), 2)
        + SpanTables(v + (e1 - p), v + (e2 - p), 3) + SpanTables(v + (e2 - p), v + n, 4)
    else {}
  }

  /** The tables that MapRegionWithLargestPages needs. */
  ghost function RegionTables(v: nat, p: nat, size: nat, has2MiB: bool, has1GiB: bool): set<Path> {
    var d := Largest(size, has2MiB, has1GiB);
    if d == 4 then SpanTables(v, v + PageCount(size), 4)
    else if d == 2 && has2MiB then TablesOfBoth(v, p, size)
    else TablesAround(v, p, size, d)
  }

  method ThreeSpans(t: PageTree, ghost mem0: map<Frame, Table>, v: nat, p: nat, start: nat, end: nat, n: nat, flags: bv32, ghost o: Offer, d: nat, ghost tables: set<Path>)
    requires t.Valid() && Going(Space(t.mem, t.at), t.root, mem0, v, p, p, flags, o, None) && Clear(mem0, t.root, v, n)
    requires Span(v, p, p, start, n, 4) && Span(v, p, start, end, n, d) && Span(v, p, end, p + n, n, 4) && Enough(tables, t.at, t.free)
    requires SpanTables(v, v + (start - p), 4) <= tables && SpanTables(v + (start - p), v + (end - p), d) <= tables && SpanTables(v + (end - p), v + n, 4) <= tables
    requires Uses(o, p, start, 4) && Uses(o, start, end, d) && Uses(o, end, p + n, 4)
    modifies t
    ensures t.Valid() && Going(Space(t.mem, t.at), t.root, mem0, v, p, p + n, flags, o, Losing(v, p, start, end, d, None))
  {
    hide Going, Clear, Uses, SpanTables, Enough, Pages, Tree, Pool;
    SmallNeverLose(v, p, p, start, None);
    SmallNeverLose(v, p, end, p + n, Losing(v, p, start, end, d, None));
    MapSpan(t, mem0, v, p, p, start, n, flags, o, 4, tables, None);
    MapSpan(t, mem0, v, p, start, end, n, flags, o, d, tables, None);
    MapSpan(t, mem0, v, p, end, p + n, n, flags, o, 4, tables, Losing(v, p, start, end, d, None));
  }

  lemma SmallNeverLose(v: nat, p: nat, from: nat, to: nat, bad: Option<(nat, nat)>)
    ensures Losing(v, p, from, to, 4, bad) == bad
  {
  }

  /** The page lost by the three loops over large pages. */
  function LosingBoth(v: nat, p: nat, s2: nat, s1: nat, e1: nat, e2: nat): Option<(nat, nat)> {
    Losing(v, p, e1, e2, 3, Losing(v, p, s1, e1, 2, Losing(v, p, s2, s1, 3, None)))
  }

  method FiveSpans(t: PageTree, ghost mem0: map<Frame, Table>, v: nat, p: nat, s2: nat, s1: nat, e1: nat, e2: nat, n: nat, flags: bv32, ghost o: Offer, ghost tables: set<Path>)
    requires t.Valid() && Going(Space(t.mem, t.at), t.root, mem0, v, p, p, flags, o, None) && Clear(mem0, t.root, v, n) && Span(v, p, p, s2, n, 4) && Enough(tables, t.at, t.free)
    requires Span(v, p, s2, s1, n, 3) && Span(v, p, s1, e1, n, 2) && Span(v, p, e1, e2, n, 3) && Span(v, p, e2, p + n, n, 4)
    requires SpanTables(v, v + (s2 - p), 4) <= tables && SpanTables(v + (s2 - p), v + (s1 - p), 3) <= tables && SpanTables(v + (s1 - p), v + (e1 - p), 2) <= tables
    requires SpanTables(v + (e1 - p), v + (e2 - p), 3) <= tables && SpanTables(v + (e2 - p), v + n, 4) <= tables
    requires Uses(o, p, s2, 4) && Uses(o, s2, s1, 3) && Uses(o, s1, e1, 2) && Uses(o, e1, e2, 3) && Uses(o, e2, p + n, 4)
    modifies t
    ensures t.Valid() && Going(Space(t.mem, t.at), t.root, mem0, v, p, p + n, flags, o, LosingBoth(v, p, s2, s1, e1, e2))
  {
    hide Going, Clear, Uses, SpanTables, Enough, Pages, Tree, Pool, Losing;
    SmallNeverLose(v, p, p, s2, None);
    SmallNeverLose(v, p, e2, p + n, LosingBoth(v, p, s2, s1, e1, e2));
    MapSpan(t, mem0, v, p, p, s2, n, flags, o, 4, tables, None);
    MapSpan(t, mem0, v, p, s2, s1, n, flags, o, 3, tables, None);
    MapSpan(t, mem0, v, p, s1, e1, n, flags, o, 2, tables, Losing(v, p, s2, s1, 3, None));
    MapSpan(t, mem0, v, p, e1, e2, n, flags, o, 3, tables, Losing(v, p, s1, e1, 2, Losing(v, p, s2, s1, 3, None)));
    MapSpan(t, mem0, v, p, e2, p + n, n, flags, o, 4, tables, LosingBoth(v, p, s2, s1, e1, e2));
  }

  /** Both ends of the region have the same place in a page of depth `d`, if one is used between small pages. */
  predicate AlignedAround(v: nat, p: nat, size: nat, d: nat) {
    RoundUp(p, Pages(d)) < RoundDown(p + size / 4096, Pages(d)) ==> v % Pages(d) == p % Pages(d)
  }

  /** The same where both sizes are in use. */
  predicate AlignedBoth(v: nat, p: nat, size: nat) {
    var s2, s1, e1, e2 := RoundUp(p, 512), RoundUp(p, 262144), RoundDown(p + size / 4096, 262144), RoundDown(p + size / 4096, 512);
    (s1 < e1 ==> v % 262144 == p % 262144) && (s2 < s1 || e1 < e2 ==> v % 512 == p % 512)
  }

  /** Every large page that is used is aligned in virtual memory as it is in physical memory. */
  predicate SameAlignment(v: nat, p: nat, size: nat, has2MiB: bool, has1GiB: bool) {
    var d := Largest(size, has2MiB, has1GiB);
    if d == 4 then true else if d == 2 && has2MiB then AlignedBoth(v, p, size) else AlignedAround(v, p, size, d)
  }

  /** Small pages up to the first boundary, large pages up to the last one, small pages for the rest. */
  method MapAround(t: PageTree, ghost mem0: map<Frame, Table>, v: nat, p: nat, size: nat, flags: bv32, ghost o: Offer, d: nat) returns (ghost bad: Option<(nat, nat)>)
    requires 2 <= d <= 3 && size / 4096 >= Pages(d) && t.Valid() && Going(Space(t.mem, t.at), t.root, mem0, v, p, p, flags, o, None)
    requires v + PageCount(size) <= SPACE && p + PageCount(size) <= FRAMES && Clear(mem0, t.root, v, PageCount(size))
    requires Enough(TablesAround(v, p, size, d), t.at, t.free) && o.from == p && o.pages == size / 4096
    requires if d == 3 then o.has2MiB && (o.has1GiB ==> o.pages < 262144) else o.has1GiB && !o.has2MiB
    modifies t
    ensures t.Valid() && Going(Space(t.mem, t.at), t.root, mem0, v, p, p + PageCount(size), flags, o, bad) && (bad.None? <==> AlignedAround(v, p, size, d))
  {
    hide Going, Clear, Uses, RoundUp, RoundDown, PageCount, SpanTables, Enough, Tree, Pool;
    var b := Pages(d);
    AroundSpans(v, p, size, d);
    AroundUses(o, PageCount(size), d);
    var start, end, n := RoundUp(p, b), RoundDown(p + size / 4096, b), PageCount(size);
    bad := Losing(v, p, start, end, d, None);
    ThreeSpans(t, mem0, v, p, start, end, n, flags, o, d, TablesAround(v, p, size, d));
  }

  lemma AroundSpans(v: nat, p: nat, size: nat, d: nat)
    requires 2 <= d <= 3 && size / 4096 >= Pages(d)
    requires v + PageCount(size) <= SPACE && p + PageCount(size) <= FRAMES
    ensures var b, n := Pages(d), PageCount(size);
      var start, end := RoundUp(p, b), RoundDown(p + size / 4096, b);
      Span(v, p, p, start, n, 4) && Span(v, p, start, end, n, d) && Span(v, p, end, p + n, n, 4)
  {
    Rounded(p, size / 4096, Pages(d));
    hide RoundUp, RoundDown;
  }

  /** The largest pages for the three stretches around the large ones. */
  lemma AroundUses(o: Offer, n: nat, d: nat)
    requires if d == 3 then o.has2MiB && (o.has1GiB ==> o.pages < 262144) else d == 2 && o.has1GiB && !o.has2MiB
    ensures var start, end := RoundUp(o.from, Pages(d)), RoundDown(o.from + o.pages, Pages(d));
      start <= end ==> Uses(o, o.from, start, 4) && Uses(o, start, end, d) && Uses(o, end, o.from + n, 4)
  {
    var b := Pages(d);
    hide RoundUp, RoundDown;
    var start, end := RoundUp(o.from, b), RoundDown(o.from + o.pages, b);
    forall x: nat ensures Best(o, x) == if start <= x < end then d else 4 {
      WithinIff(o, x, b);
      if o.pages < 262144 {
        TooShort(o, x, 262144);
      }
      hide Within;
    }
  }

  lemma BothUses(o: Offer, n: nat)
    requires o.has2MiB && o.has1GiB
    ensures var s2, s1 := RoundUp(o.from, 512), RoundUp(o.from, 262144);
      var e1, e2 := RoundDown(o.from + o.pages, 262144), RoundDown(o.from + o.pages, 512);
      s2 <= s1 <= e1 <= e2 ==> Uses(o, o.from, s2, 4) && Uses(o, s2, s1, 3) && Uses(o, s1, e1, 2) && Uses(o, e1, e2, 3) && Uses(o, e2, o.from + n, 4)
  {
    hide RoundUp, RoundDown;
    forall x: nat ensures Best(o, x) == BestBoth(o, x) {
      WithinIff(o, x, 512);
      WithinIff(o, x, 262144);
    }
    hide Best;
  }

  function BestBoth(o: Offer, x: nat): nat {
    if RoundUp(o.from, 262144) <= x < RoundDown(o.from + o.pages, 262144) then 2
    else if RoundUp(o.from, 512) <= x < RoundDown(o.from + o.pages, 512) then 3 else 4
  }

  /** Where no large page fits, small ones are the largest. */
  lemma SmallUses(o: Offer, a: nat, b: nat)
    requires (o.has2MiB ==> o.pages < 512) && (o.has1GiB ==> o.pages < 262144)
    ensures Uses(o, a, b, 4)
  {
    forall x: nat ensures Best(o, x) == 4 {
      if o.pages < 512 {
        TooShort(o, x, 512);
      }
      if o.pages < 262144 {
        TooShort(o, x, 262144);
      }
    }
  }

  lemma BothSpans(v: nat, p: nat, size: nat)
    requires size / 4096 >= 262144
    requires v + PageCount(size) <= SPACE && p + PageCount(size) <= FRAMES
    ensures var n := PageCount(size);
      var s2, s1 := RoundUp(p, 512), RoundUp(p, 262144);
      var e1, e2 := RoundDown(p + size / 4096, 262144), RoundDown(p + size / 4096, 512);
      Span(v, p, p, s2, n, 4) && Span(v, p, s2, s1, n, 3) && Span(v, p, s1, e1, n, 2) && Span(v, p, e1, e2, n, 3) && Span(v, p, e2, p + n, n, 4)
  {
    Rounded(p, size / 4096, 512);
    Rounded(p, size / 4096, 262144);
    RoundedTwice(p, size / 4096);
    hide RoundUp, RoundDown;
  }

  /** The same with 2 MiB pages up to the first 1 GiB boundary and after the last one. */
  method MapBoth(t: PageTree, ghost mem0: map<Frame, Table>, v: nat, p: nat, size: nat, flags: bv32, ghost o: Offer) returns (ghost bad: Option<(nat, nat)>)
    requires size / 4096 >= 262144 && t.Valid() && Going(Space(t.mem, t.at), t.root, mem0, v, p, p, flags, o, None)
    requires v + PageCount(size) <= SPACE && p + PageCount(size) <= FRAMES && Clear(mem0, t.root, v, PageCount(size))
    requires Enough(TablesOfBoth(v, p, size), t.at, t.free) && o == Offer(p, size / 4096, true, true)
    modifies t
    ensures t.Valid() && Going(Space(t.mem, t.at), t.root, mem0, v, p, p + PageCount(size), flags, o, bad) && (bad.None? <==> AlignedBoth(v, p, size))
  {
    hide Going, Clear, Uses, RoundUp, RoundDown, PageCount, SpanTables, Enough, Tree, Pool;
    BothSpans(v, p, size);
    BothUses(o, PageCount(size));
    var n := PageCount(size);
    var s2, s1 := RoundUp(p, 512), RoundUp(p, 262144);
    var e1, e2 := RoundDown(p + size / 4096, 262144), RoundDown(p + size / 4096, 512);
    bad := LosingBoth(v, p, s2, s1, e1, e2);
    FiveSpans(t, mem0, v, p, s2, s1, e1, e2, n, flags, o, TablesOfBoth(v, p, size));
  }

  /**
   * x86_64_MapRegionWithLargestPages, for a page-aligned region without translations and with frames for the tables it lacks.
   * The code aligns physical addresses only: the region is mapped exactly if its large pages are aligned in virtual memory too.
   */
  method MapRegionWithLargestPages(t: PageTree, v: nat, p: nat, size: nat, flags: bv32, has2MiB: bool, has1GiB: bool)
    requires t.Valid() && Clear(t.mem, t.root, v, PageCount(size)) && v + PageCount(size) <= SPACE && p + PageCount(size) <= FRAMES
    requires Enough(RegionTables(v, p, size, has2MiB, has1GiB), t.at, t.free)
    modifies t
    ensures t.Valid()
    ensures RegionMapped(old(t.mem), t.mem, t.root, v, p, PageCount(size), flags) <==> SameAlignment(v, p, size, has2MiB, has1GiB)
    ensures SameAlignment(v, p, size, has2MiB, has1GiB) ==> LargestUsed(t.mem, t.root, v, p, PageCount(size), Offer(p, size / 4096, has2MiB, has1GiB))
  {
    hide Clear, RegionMapped, LargestUsed, Uses, TablesAround, TablesOfBoth, SpanTables, Enough, Pages, Going, AlignedAround, AlignedBoth, Tree, Pool;
    ghost var mem0, bad := t.mem, None;
    ghost var o := Offer(p, size / 4096, has2MiB, has1GiB);
    NoProgress(Space(t.mem, t.at), t.root, v, p, flags, o);
    LargestFits(size, has2MiB, has1GiB);
    var n := PageCount(size);
    if (!has2MiB && !has1GiB) || size < 0x20_0000 || (size < 0x4000_0000 && !has2MiB) {
      WholeSpan(v, p, n);
      SmallUses(o, p, p + n);
      SmallNeverLose(v, p, p, p + n, None);
      MapSpan(t, mem0, v, p, p, p + n, n, flags, o, 4, SpanTables(v, v + n, 4), None);
    } else if (has2MiB && !has1GiB) || size < 0x4000_0000 {
      bad := MapAround(t, mem0, v, p, size, flags, o, 3);
    } else if !has2MiB && has1GiB {
      bad := MapAround(t, mem0, v, p, size, flags, o, 2);
    } else {
      bad := MapBoth(t, mem0, v, p, size, flags, o);
    }
    Finished(Space(t.mem, t.at), t.root, mem0, v, p, n, flags, o, bad);
  }

  /** A region of 2 MiB at the second page: its one large page covers the 512 pages from the first on. */
  method ShiftedRegion(root: Frame, frames: set<Frame>, flags: bv32) returns (t: PageTree, ghost mem0: map<Frame, Table>)
    requires Aligned(root) && root !in frames && (forall f :: f in frames ==> Aligned(f)) && |frames| >= 7
    ensures t.Valid() && Clear(mem0, t.root, 1, 512) && !RegionMapped(mem0, t.mem, t.root, 1, 0, 512, flags)
  {
    t := new PageTree(root, frames);
    mem0 := t.mem;
    hide Tree, Pool, Translate, RegionMapped, RegionTables;
    assert PageCount(0x20_0000) == 512 && !SameAlignment(1, 0, 0x20_0000, true, false);
    FewTables(1, 0, 0x20_0000, true, false);
    EnoughFor(RegionTables(1, 0, 0x20_0000, true, false), t.at, t.free);
    MapRegionWithLargestPages(t, 1, 0, 0x20_0000, flags, true, false);
  }

  lemma EnoughFor(tables: set<Path>, at: map<Path, Frame>, free: set<Frame>)
    requires |tables| <= |free|
    ensures Enough(tables, at, free)
  {
    assert tables == (tables - at.Keys) + (tables * at.Keys);
  }

  lemma NoProgress(s: Space, root: Frame, v: nat, p: nat, flags: bv32, o: Offer)
    requires Tree(s, root, Root)
    ensures Going(s, root, s.mem, v, p, p, flags, o, None)
  {
    hide Translate, Tree;
  }

  lemma Finished(s: Space, root: Frame, mem0: map<Frame, Table>, v: nat, p: nat, n: nat, flags: bv32, o: Offer, bad: Option<(nat, nat)>)
    requires Going(s, root, mem0, v, p, p + n, flags, o, bad)
    ensures RegionMapped(mem0, s.mem, root, v, p, n, flags) <==> bad.None?
    ensures bad.None? ==> LargestUsed(s.mem, root, v, p, n, o)
  {
    hide Tree, Translate, Reaches, Prefix, Best;
    if bad.Some? {
      var w := bad.value.0;
      PagesPositive(bad.value.1);
      LowIs(w, 0, w);
      hide Low, Pages;
      assert !Reaches(Translate(s.mem, root, w), w, p + (Low(w) - v), flags);
    }
  }

  lemma LargestFits(size: nat, has2MiB: bool, has1GiB: bool)
    ensures Largest(size, has2MiB, has1GiB) == 3 ==> size / 4096 >= Pages(3)
    ensures Largest(size, has2MiB, has1GiB) == 2 ==> size / 4096 >= Pages(2) == 262144
  {
  }

  lemma WholeSpan(v: nat, p: nat, n: nat)
    requires v + n <= SPACE && p + n <= FRAMES
    ensures Span(v, p, p, p + n, n, 4)
  {
  }

  // ---------- How many tables a region needs ----------

  /** The tables of one depth for the virtual pages from `a` up to `a + n`. */
  ghost function LevelTables(a: nat, n: nat, c: nat): set<Path> {
    set u: nat | a <= u < a + n :: Prefix(u, c)
  }

  /** The pages below one table of depth `c`. */
  function TableSpan(c: nat): (b: nat)
    ensures b > 0
  {
    if c == 1 then 134217728 else if c == 2 then 262144 else 512
  }

  lemma SameTable(u: nat, w: nat, c: nat)
    requires 1 <= c <= 3 && u < SPACE && w < SPACE && u / TableSpan(c) == w / TableSpan(c)
    ensures Prefix(u, c) == Prefix(w, c)
  {
    LowIs(u, 0, u);
    LowIs(w, 0, w);
    hide Prefix;
    KeyPrefix(u, w, c);
  }

  lemma LevelNext(a: nat, n: nat, c: nat)
    ensures LevelTables(a, n + 1, c) == LevelTables(a, n, c) + {Prefix(a + n, c)}
    ensures n > 0 ==> Prefix(a + n - 1, c) in LevelTables(a, n, c)
  {
    hide Prefix;
  }

  /** The number of the table of depth `c` that a page is below. */
  function TableOf(u: nat, c: nat): nat {
    u / TableSpan(c)
  }

  lemma NextTable(u: nat, c: nat)
    requires 1 <= c <= 3 && u + 1 < SPACE
    ensures TableOf(u, c) <= TableOf(u + 1, c) <= TableOf(u, c) + 1
    ensures TableOf(u + 1, c) == TableOf(u, c) ==> Prefix(u + 1, c) == Prefix(u, c)
  {
    hide TableSpan, Prefix;
    Quotients(u, TableSpan(c));
    if TableOf(u + 1, c) == TableOf(u, c) {
      SameTable(u + 1, u, c);
    }
  }

  lemma {:induction false} LevelCount(a: nat, n: nat, c: nat)
    requires 1 <= c <= 3 && a + n <= SPACE
    ensures n > 0 ==> |LevelTables(a, n, c)| <= TableOf(a + n - 1, c) - TableOf(a, c) + 1
    ensures n == 0 ==> |LevelTables(a, n, c)| == 0
    decreases n
  {
    hide Prefix, TableOf;
    if n == 0 {
      assert LevelTables(a, n, c) == {};
    } else {
      hide LevelTables;
      LevelCount(a, n - 1, c);
      LevelNext(a, n - 1, c);
      AddOne(LevelTables(a, n - 1, c), Prefix(a + n - 1, c));
      if n > 1 {
        NextTable(a + n - 2, c);
      }
    }
  }

  lemma AddOne<T>(a: set<T>, x: T)
    ensures |a + {x}| == if x in a then |a| else |a| + 1
  {
    if x in a {
      Absorb(a, {x});
    }
  }

  lemma Quotients(x: nat, b: nat)
    requires b > 0
    ensures x / b <= (x + 1) / b <= x / b + 1
  {
    var q, r := x / b, x % b;
    assert x == q * b + r;
    if r + 1 < b {
      DivIs(x + 1, q, r + 1, b);
    } else {
      MulStep(q, q, b);
      DivIs(x + 1, q + 1, 0, b);
    }
  }

  /** A stretch of n pages touches at most n / b + 2 blocks. */
  lemma Blocks(a: nat, n: nat, b: nat)
    requires b > 0 && n > 0
    ensures (a + n - 1) / b - a / b + 1 <= n / b + 2
  {
    var x, y, z := a / b, (a + n - 1) / b, n / b;
    assert a == x * b + a % b && a + n - 1 == y * b + (a + n - 1) % b && n == z * b + n % b;
    assert (x + z + 1) * b == x * b + z * b + b;
    MulStep(x + z + 1, y, b);
  }

  lemma Sizes<T>(a: set<T>, b: set<T>, c: set<T>, d: set<T>)
    requires d <= a + b + c
    ensures |d| <= |a| + |b| + |c|
  {
    assert a + b + c == d + (a + b + c - d);
  }

  lemma SpanLevels(a: nat, n: nat)
    ensures SpanTables(a, a + n, 4) <= LevelTables(a, n, 1) + LevelTables(a, n, 2) + LevelTables(a, n, 3)
  {
    hide Prefix;
  }

  /** The tables for n pages are at most n / 512 + n / 2^18 + n / 2^27 + 6, whatever the sizes of the pages. */
  lemma FewTables(v: nat, p: nat, size: nat, has2MiB: bool, has1GiB: bool)
    requires v + PageCount(size) <= SPACE
    ensures var n := PageCount(size);
      |RegionTables(v, p, size, has2MiB, has1GiB)| <= n / 512 + n / 262144 + n / 134217728 + 6
  {
    hide SpanTables, LevelTables, RegionTables, PageCount;
    var n := PageCount(size);
    RegionWithin(v, p, size, has2MiB, has1GiB);
    SpanLevels(v, n);
    Sizes(LevelTables(v, n, 1), LevelTables(v, n, 2), LevelTables(v, n, 3), RegionTables(v, p, size, has2MiB, has1GiB));
    LevelCount(v, n, 1);
    LevelCount(v, n, 2);
    LevelCount(v, n, 3);
    if n > 0 {
      Blocks(v, n, 512);
      Blocks(v, n, 262144);
      Blocks(v, n, 134217728);
    }
  }

  lemma SpanWithin(a: nat, b: nat, d: nat, lo: nat, hi: nat)
    requires lo <= a && b <= hi && d <= 4
    ensures SpanTables(a, b, d) <= SpanTables(lo, hi, 4)
  {
    hide Prefix;
  }

  lemma AroundWithin(v: nat, p: nat, size: nat, d: nat)
    requires 2 <= d <= 3 && size / 4096 >= Pages(d)
    ensures TablesAround(v, p, size, d) <= SpanTables(v, v + PageCount(size), 4)
  {
    hide SpanTables, RoundUp, RoundDown;
    var b, n := Pages(d), PageCount(size);
    Rounded(p, size / 4096, b);
    var start, end := RoundUp(p, b), RoundDown(p + size / 4096, b);
    SpanWithin(v, v + (start - p), 4, v, v + n);
    SpanWithin(v + (start - p), v + (end - p), d, v, v + n);
    SpanWithin(v + (end - p), v + n, 4, v, v + n);
  }

  lemma BothWithin(v: nat, p: nat, size: nat)
    requires size / 4096 >= 262144
    ensures TablesOfBoth(v, p, size) <= SpanTables(v, v + PageCount(size), 4)
  {
    hide SpanTables, RoundUp, RoundDown;
    var n := PageCount(size);
    Rounded(p, size / 4096, 512);
    Rounded(p, size / 4096, 262144);
    RoundedTwice(p, size / 4096);
    var s2, s1, e1, e2 := RoundUp(p, 512), RoundUp(p, 262144), RoundDown(p + size / 4096, 262144), RoundDown(p + size / 4096, 512);
    SpanWithin(v, v + (s2 - p), 4, v, v + n);
    SpanWithin(v + (s2 - p), v + (s1 - p), 3, v, v + n);
    SpanWithin(v + (s1 - p), v + (e1 - p), 2, v, v + n);
    SpanWithin(v + (e1 - p), v + (e2 - p), 3, v, v + n);
    SpanWithin(v + (e2 - p), v + n, 4, v, v + n);
  }

  lemma RegionWithin(v: nat, p: nat, size: nat, has2MiB: bool, has1GiB: bool)
    ensures RegionTables(v, p, size, has2MiB, has1GiB) <= SpanTables(v, v + PageCount(size), 4)
  {
    hide SpanTables, TablesAround, TablesOfBoth;
    var d := Largest(size, has2MiB, has1GiB);
    if d < 4 {
      if d == 2 && has2MiB {
        BothWithin(v, p, size);
      } else {
        AroundWithin(v, p, size, d);
      }
    }
  }

  /** Two ways of mapping the same region send every address to the same frame with the same flags. */
  lemma SameMeaning(mem: map<Frame, Table>, mem1: map<Frame, Table>, mem2: map<Frame, Table>, root: Frame,
                    v: nat, p: nat, len: nat, flags: bv32, u: nat)
    requires RegionMapped(mem, mem1, root, v, p, len, flags) && RegionMapped(mem, mem2, root, v, p, len, flags)
    ensures var w1, w2 := Translate(mem1, root, u), Translate(mem2, root, u);
      if v <= Low(u) < v + len then
        && w1.Some? && w2.Some?
        && LeafFrame(w1.value.0, w1.value.1) + Low(u) % Pages(w1.value.1) == LeafFrame(w2.value.0, w2.value.1) + Low(u) % Pages(w2.value.1)
        && Attributes(w1.value.0, w1.value.1) == Attributes(w2.value.0, w2.value.1)
      else w1 == w2
  {
    hide Translate, Low, LeafFrame, Attributes;
  }
}
