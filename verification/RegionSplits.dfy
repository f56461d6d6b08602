/** kernel/src/Memory/VMRegionAllocator.cpp: splitting nodes of the tree of all regions, in the arithmetic of 64-bit addresses. */
module RegionSplits {
  import opened Basics
  import opened Regions
  import opened RegionAllocator

  /** The pages of the address space. */
  const PAGES: nat := 0x10_0000_0000_0000

  /** The size of a node has 62 bits. */
  const SIZES: nat := 0x4000_0000_0000_0000

  function Bits62(size: nat): nat {
    size % SIZES
  }

  /** A node of the tree of all regions. Insert returns a new node even if the key is taken; that one is not linked in. */
  datatype Node = Node(key: nat, data: Region, linked: bool)

  /** SplitAPTNode with a number of pages that the region need not have. */
  function Divided(rs: Partition, node: Node, n: nat): (Partition, Node) {
    var rs1 := if node.linked then rs[node.key := Region(n % SIZES, node.data.isFree)] else rs;
    var key, data := (node.key + n) % PAGES, Region((node.data.size - n) % SIZES, node.data.isFree);
    (if key in rs1 then rs1 else rs1[key := data], Node(key, data, key !in rs1))
  }

  /** The region at `k` split at `p`, and the node from there on; the region itself if it does not begin before. */
  function Placed(rs: Partition, k: nat, p: nat): (Partition, Node)
    requires k in rs
  {
    var node := Node(k, rs[k], true);
    if k < p then Divided(rs, node, p - k) else (rs, node)
  }

  function Resized(rs: Partition, p: nat, newStart: nat, newCount: nat): Partition
    requires p in rs
  {
    var (rs1, node1) := Placed(rs, p, newStart);
    if node1.data.size != newCount then Divided(rs1, node1, newCount).0 else rs1
  }

  /** The new range lies in the region; a start before the region counts as its start. */
  predicate Within(p: nat, n: nat, newStart: nat, newCount: nat) {
    var from := if p < newStart then newStart else p;
    from < p + n && 0 < newCount && from + newCount <= p + n
  }

  /** The new range begins where the next region does, and ends with a region or is empty: the tree has both keys. */
  predicate KeysTaken(rs: Partition, p: nat, n: nat, newStart: nat, newCount: nat) {
    newStart == p + n && newStart in rs && (newCount == 0 || (newStart + newCount) % PAGES in rs)
  }

  /** A piece of the region: nothing wraps. */
  lemma DividedWithin(rs: Partition, lo: nat, hi: nat, k: nat, n: nat)
    requires Tiled(rs, lo, hi) && hi <= PAGES && k in rs && 0 < n < rs[k].size
    ensures Divided(rs, Node(k, rs[k], true), n) == (Split(rs, k, n), Node(k + n, Region(rs[k].size - n, rs[k].isFree), true))
  {
    WithinEnd(rs, lo, hi, k);
    Inside(rs, lo, hi, k, k + n);
    hide Tiled;
  }

  /** The node gets its size, no other region changes, and none goes away. */
  lemma DividedKeeps(rs: Partition, node: Node, n: nat)
    requires n < SIZES
    ensures var rs' := Divided(rs, node, n).0;
      rs.Keys <= rs'.Keys && (forall k :: k in rs && k != node.key ==> rs'[k] == rs[k]) && (node.linked ==> node.key in rs' && rs'[node.key].size == n)
  {
  }

  lemma ResizedWithin(rs: Partition, lo: nat, hi: nat, p: nat, newStart: nat, newCount: nat)
    requires Tiled(rs, lo, hi) && hi <= PAGES && p in rs && Within(p, rs[p].size, newStart, newCount)
    ensures Resized(rs, p, newStart, newCount) == Cut(rs, p, if p < newStart then newStart else p, newCount)
  {
    hide Tiled, Divided;
    var rs1, from := rs, p;
    if p < newStart {
      from := newStart;
      rs1 := Split(rs, p, newStart - p);
      DividedWithin(rs, lo, hi, p, newStart - p);
      SplitTiled(rs, lo, hi, p, newStart - p);
    }
    if newCount < rs1[from].size {
      DividedWithin(rs1, lo, hi, from, newCount);
    }
  }

  /** The key after the region is taken: the new node is not linked in. */
  lemma DividedAfter(rs: Partition, lo: nat, hi: nat, p: nat)
    requires Tiled(rs, lo, hi) && hi <= PAGES && p in rs && p + rs[p].size in rs
    ensures Divided(rs, Node(p, rs[p], true), rs[p].size) == (rs, Node(p + rs[p].size, Region(0, rs[p].isFree), false))
  {
    var q := p + rs[p].size;
    WithinEnd(rs, lo, hi, p);
    WithinEnd(rs, lo, hi, q);
    Positive(rs, lo, hi, q);
    hide Tiled;
    assert rs[p := rs[p]] == rs;
  }

  lemma ResizedNothing(rs: Partition, lo: nat, hi: nat, p: nat, newStart: nat, newCount: nat)
    requires Tiled(rs, lo, hi) && hi <= PAGES && p in rs && KeysTaken(rs, p, rs[p].size, newStart, newCount)
    ensures Resized(rs, p, newStart, newCount) == rs
  {
    Positive(rs, lo, hi, p);
    DividedAfter(rs, lo, hi, p);
    hide Tiled;
  }

  /** A region that reaches into what follows it, or has no page, is out of order. */
  lemma OutOfOrder(rs: Partition, rs': Partition, lo: nat, hi: nat, k: nat, p: nat)
    requires Tiled(rs, lo, hi) && rs.Keys <= rs'.Keys && p in rs && k in rs' && p <= k < p + rs[p].size
    requires rs'[k].size == 0 || k + rs'[k].size > p + rs[p].size
    ensures !Tiled(rs', lo, hi)
  {
    WithinEnd(rs, lo, hi, p);
    var q := End(rs, p);
    if q < hi {
      assert q in rs && q in rs';
    }
  }

  /** Outside of the two cases the tree no longer tiles the range. */
  lemma ResizedBroken(rs: Partition, lo: nat, hi: nat, p: nat, newStart: nat, newCount: nat)
    requires Tiled(rs, lo, hi) && hi <= PAGES && p in rs && newStart < PAGES && newStart + newCount <= PAGES
    requires !Within(p, rs[p].size, newStart, newCount) && !KeysTaken(rs, p, rs[p].size, newStart, newCount)
    ensures !Tiled(Resized(rs, p, newStart, newCount), lo, hi)
  {
    hide Tiled, Divided, Resized;
    var q := p + rs[p].size;
    Positive(rs, lo, hi, p);
    if newStart < q {
      BrokenSize(rs, lo, hi, p, newStart, newCount);
    } else if newStart > q {
      BrokenStart(rs, lo, hi, p, newStart, newCount);
    } else if q !in rs {
      BrokenEnd(rs, lo, hi, p, newCount);
    } else {
      BrokenAfter(rs, lo, hi, p, newCount);
    }
  }

  /** More pages than the region has left, or none. */
  lemma BrokenSize(rs: Partition, lo: nat, hi: nat, p: nat, newStart: nat, newCount: nat)
    requires Tiled(rs, lo, hi) && hi <= PAGES && p in rs && newStart < p + rs[p].size && newCount <= PAGES && 0 < rs[p].size
    requires !Within(p, rs[p].size, newStart, newCount)
    ensures !Tiled(Resized(rs, p, newStart, newCount), lo, hi)
  {
    hide Tiled, Divided;
    var rs1, node := rs, Node(p, rs[p], true);
    if p < newStart {
      rs1, node := Split(rs, p, newStart - p), Node(newStart, Region(p + rs[p].size - newStart, rs[p].isFree), true);
      DividedWithin(rs, lo, hi, p, newStart - p);
    }
    assert node.data.size != newCount;
    DividedKeeps(rs1, node, newCount);
    OutOfOrder(rs, Resized(rs, p, newStart, newCount), lo, hi, node.key, p);
  }

  /** A start beyond the end of the region. */
  lemma BrokenStart(rs: Partition, lo: nat, hi: nat, p: nat, newStart: nat, newCount: nat)
    requires Tiled(rs, lo, hi) && hi <= PAGES && p in rs && p + rs[p].size < newStart < PAGES && newCount <= PAGES
    ensures !Tiled(Resized(rs, p, newStart, newCount), lo, hi)
  {
    Positive(rs, lo, hi, p);
    hide Tiled, Divided;
    var node, n := Node(p, rs[p], true), newStart - p;
    DividedKeeps(rs, node, n);
    DividedKey(rs, node, n);
    DividedKeeps(Divided(rs, node, n).0, Divided(rs, node, n).1, newCount);
    OutOfOrder(rs, Resized(rs, p, newStart, newCount), lo, hi, p, p);
  }

  lemma DividedKey(rs: Partition, node: Node, n: nat)
    requires node.key + n < PAGES
    ensures Divided(rs, node, n).1.key == node.key + n
  {
  }

  /** A node inserted at the end of the range. */
  lemma BrokenEnd(rs: Partition, lo: nat, hi: nat, p: nat, newCount: nat)
    requires Tiled(rs, lo, hi) && p in rs && p + rs[p].size !in rs && p + rs[p].size + newCount <= PAGES && p + rs[p].size < PAGES
    ensures !Tiled(Resized(rs, p, p + rs[p].size, newCount), lo, hi)
  {
    var n, node := rs[p].size, Node(p, rs[p], true);
    assert End(rs, p) >= hi;
    Positive(rs, lo, hi, p);
    assert p + n in Divided(rs, node, n).0;
    DividedKeeps(Divided(rs, node, n).0, Divided(rs, node, n).1, newCount);
    hide Divided;
    assert p + n in Resized(rs, p, p + n, newCount);
  }

  /** A node inserted after the next region, with a size that wrapped. */
  lemma BrokenAfter(rs: Partition, lo: nat, hi: nat, p: nat, newCount: nat)
    requires Tiled(rs, lo, hi) && hi <= PAGES && p in rs && p + rs[p].size in rs && p + rs[p].size + newCount <= PAGES
    requires newCount > 0 && (p + rs[p].size + newCount) % PAGES !in rs
    ensures !Tiled(Resized(rs, p, p + rs[p].size, newCount), lo, hi)
  {
    var q := p + rs[p].size;
    Positive(rs, lo, hi, p);
    hide Tiled, Divided;
    DividedAfter(rs, lo, hi, p);
    DividedInserted(rs, Node(q, Region(0, rs[p].isFree), false), newCount);
    WrappedSize(newCount);
    TooLarge(Resized(rs, p, q, newCount), lo, hi, (q + newCount) % PAGES);
  }

  lemma DividedInserted(rs: Partition, node: Node, n: nat)
    requires !node.linked && (node.key + n) % PAGES !in rs
    ensures Divided(rs, node, n).0 == rs[(node.key + n) % PAGES := Region((node.data.size - n) % SIZES, node.data.isFree)]
  {
  }

  lemma TooLarge(rs: Partition, lo: nat, hi: nat, k: nat)
    requires k in rs && rs[k].size > hi
    ensures !Tiled(rs, lo, hi)
  {
  }

  lemma WrappedSize(n: nat)
    requires 0 < n <= PAGES
    ensures (0 - n) % SIZES > PAGES
  {
    assert (0 - n) % SIZES == SIZES - n;
  }

  lemma WithinNotTaken(rs: Partition, p: nat, n: nat, newStart: nat, newCount: nat)
    requires Within(p, n, newStart, newCount)
    ensures !KeysTaken(rs, p, n, newStart, newCount)
  {
  }

  /** Three pages asked of a region of two: the tree no longer tiles the range. */
  lemma ResizeBeyond()
    ensures var rs := map[0 := Region(2, false), 2 := Region(3, true)]; Tiled(rs, 0, 5) && !Tiled(Resized(rs, 0, 0, 3), 0, 5)
  {
    var rs := map[0 := Region(2, false), 2 := Region(3, true)];
    hide Resized;
    ResizedBroken(rs, 0, 5, 0, 0, 3);
  }

  // ---------- The node at an address ----------

  /** The region with the greatest start not above `p`. */
  ghost predicate IsLower(rs: Partition, p: nat, k: nat) {
    k in rs && k <= p && forall j :: j in rs && j <= p ==> j <= k
  }

  /** The node at `p` is linked in. It has what is left of the region, or a size that no region has if `p` lies behind it. */
  lemma PlacedAt(rs: Partition, lo: nat, hi: nat, k: nat, p: nat)
    requires Tiled(rs, lo, hi) && hi <= PAGES && IsLower(rs, p, k) && p < PAGES
    ensures var (rs1, node) := Placed(rs, k, p);
      && node.key == p && node.linked && p in rs1 && rs1[p] == node.data && node.data.isFree == rs[k].isFree && rs.Keys <= rs1.Keys
      && (if p < k + rs[k].size then Tiled(rs1, lo, hi) && node.data.size == k + rs[k].size - p && (k < p ==> rs1 == Split(rs, k, p - k))
          else p >= hi && (node.data.size == 0 || node.data.size > PAGES))
  {
    hide Tiled, Divided, Split;
    Positive(rs, lo, hi, k);
    if k < p < k + rs[k].size {
      PlacedInside(rs, lo, hi, k, p);
    } else if k < p {
      LastRegion(rs, lo, hi, k, p);
      PlacedBehind(rs, k, p);
    }
  }

  lemma PlacedInside(rs: Partition, lo: nat, hi: nat, k: nat, p: nat)
    requires Tiled(rs, lo, hi) && hi <= PAGES && k in rs && k < p < k + rs[k].size
    ensures var (rs1, node) := Divided(rs, Node(k, rs[k], true), p - k);
      && Tiled(rs1, lo, hi) && rs1 == Split(rs, k, p - k) && rs.Keys <= rs1.Keys && p in rs1 && rs1[p] == node.data
      && node == Node(p, Region(k + rs[k].size - p, rs[k].isFree), true)
  {
    hide Tiled, Divided;
    SplitTiled(rs, lo, hi, k, p - k);
    DividedWithin(rs, lo, hi, k, p - k);
  }

  lemma PlacedBehind(rs: Partition, k: nat, p: nat)
    requires IsLower(rs, p, k) && k < p < PAGES && k + rs[k].size <= p
    ensures var (rs1, node) := Divided(rs, Node(k, rs[k], true), p - k);
      && node.key == p && node.linked && p in rs1 && rs1[p] == node.data && node.data.isFree == rs[k].isFree && rs.Keys <= rs1.Keys
      && (node.data.size == 0 || node.data.size > PAGES)
  {
    SizeBelow(rs[k].size, p - k);
    assert p !in rs && (k + (p - k)) % PAGES == p;
  }

  lemma LastRegion(rs: Partition, lo: nat, hi: nat, k: nat, p: nat)
    requires Tiled(rs, lo, hi) && IsLower(rs, p, k) && k + rs[k].size <= p
    ensures k + rs[k].size == hi
  {
    Positive(rs, lo, hi, k);
    assert End(rs, k) <= hi;
  }

  lemma SizeBelow(a: nat, b: nat)
    requires a <= b <= PAGES
    ensures (a - b) % SIZES == 0 || (a - b) % SIZES > PAGES
  {
    assert a < b ==> (a - b) % SIZES == SIZES - (b - a);
  }

  /** Where the next split leaves the node. */
  lemma ResizedAt(rs: Partition, lo: nat, hi: nat, k: nat, p: nat, n: nat)
    requires Tiled(rs, lo, hi) && hi <= PAGES && IsLower(rs, p, k) && p < PAGES && 0 < n < SIZES
    ensures var rs1 := Resized(rs, k, p, n); p in rs1 && rs1[p] == Region(n, rs[k].isFree) && rs.Keys <= rs1.Keys
  {
    PlacedAt(rs, lo, hi, k, p);
    hide Tiled, Placed;
    var (rs1, node) := Placed(rs, k, p);
    if node.data.size != n {
      DividedFlag(rs1, node, n);
    }
  }

  lemma DividedFlag(rs: Partition, node: Node, n: nat)
    requires node.linked && n < SIZES
    ensures var rs' := Divided(rs, node, n).0; rs.Keys <= rs'.Keys && node.key in rs' && rs'[node.key] == Region(n, node.data.isFree)
  {
  }
}
