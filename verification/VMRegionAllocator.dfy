/** kernel/src/Memory/VMRegionAllocator.cpp: the allocator itself, over page numbers. */
module VMRegions {
  import opened Basics
  import opened Regions
  import opened RegionIndex
  import opened RegionAllocator
  import opened RegionSplits

  /** The pages [p, p + n) lie in the range and are free. */
  ghost predicate AllFree(rs: Partition, lo: nat, hi: nat, p: nat, n: nat) {
    lo <= p && p + n <= hi && forall x :: p <= x < p + n ==> PageIn(rs, x, true)
  }

  /** The allocated regions once [p, p + n) is taken out of the one at `k`. */
  ghost function Carve(u: map<nat, nat>, k: nat, p: nat, n: nat): map<nat, nat>
    requires k in u && k <= p && p + n <= k + u[k]
  {
    var u1 := if k < p then u[k := p - k] else u - {k};
    if p + n < k + u[k] then u1[p + n := k + u[k] - (p + n)] else u1
  }

  lemma CarvedUsed(rs: Partition, lo: nat, hi: nat, k: nat, p: nat, n: nat)
    requires Tiled(rs, lo, hi) && k in rs && !rs[k].isFree && k <= p && p + n <= k + rs[k].size && n > 0
    ensures Used(Cut(rs, k, p, n)) == Carve(Used(rs), k, p, n)[p := n] && p !in Carve(Used(rs), k, p, n)
  {
    var rs' := Cut(rs, k, p, n);
    var u, u' := Used(rs), Carve(Used(rs), k, p, n)[p := n];
    CutFields(rs, lo, hi, k, p, n);
    hide Tiled, Cut;
    forall j ensures (j in u' <==> j in rs' && !rs'[j].isFree) && (j in u' ==> u'[j] == rs'[j].size) {
      assert j in u <==> j in rs && !rs[j].isFree;
    }
  }

  /** A free run lies within one free region, so best fit misses none. */
  lemma RunHasRegion(rs: Partition, lo: nat, hi: nat, p: nat, n: nat) returns (k: nat)
    requires Tiled(rs, lo, hi) && Coalesced(rs) && AllFree(rs, lo, hi, p, n) && n > 0
    ensures k in rs && rs[k].isFree && k <= p && p + n <= k + rs[k].size
  {
    k := Covered(rs, lo, hi, p);
    PageFlag(rs, lo, hi, p, k);
    assert PageIn(rs, p, true);
    RunInRegion(rs, lo, hi, p, n, k);
  }

  /** Pages of a free region are free. */
  lemma RegionAllFree(rs: Partition, lo: nat, hi: nat, k: nat, p: nat, n: nat)
    requires Tiled(rs, lo, hi) && k in rs && rs[k].isFree && k <= p && p + n <= k + rs[k].size
    ensures AllFree(rs, lo, hi, p, n)
  {
    forall x | p <= x < p + n ensures PageIn(rs, x, true) {
      PageFlag(rs, lo, hi, x, k);
    }
  }

  /** Splitting an allocated region touches neither the free pages nor the free lists. */
  lemma ResizeKeeps(rs: Partition, fi: Index, lo: nat, hi: nat, k: nat, p: nat, n: nat)
    requires Tiled(rs, lo, hi) && Coalesced(rs) && Agree(rs, fi)
    requires k in rs && !rs[k].isFree && k <= p && p + n <= k + rs[k].size && n > 0
    ensures var rs' := Cut(rs, k, p, n);
      Tiled(rs', lo, hi) && Coalesced(rs') && Agree(rs', fi) && FreeSet(rs', lo, hi) == FreeSet(rs, lo, hi)
  {
    hide Tiled, Coalesced, Cut, PageIn;
    CutTiled(rs, lo, hi, k, p, n);
    CutFields(rs, lo, hi, k, p, n);
    var rs' := Cut(rs, k, p, n);
    assert SetFlag(rs', p, false) == rs';
    forall x | lo <= x < hi ensures PageIn(rs', x, true) <==> PageIn(rs, x, true) {
      CutPages(rs, lo, hi, k, p, n, false, x);
      if p <= x < p + n {
        PageFlag(rs, lo, hi, x, k);
      }
    }
    forall j: nat ensures !FreePair(rs', j) {
      NoPairs(rs);
      assert !FreePair(rs, j);
    }
    NoPairs(rs');
    forall s, a ensures Listed(fi, s, a) <==> a in rs' && rs'[a] == Region(s, true) {
      assert Listed(fi, s, a) <==> a in rs && rs[a] == Region(s, true);
    }
  }

  lemma ResizedSound(rs: Partition, fi: Index, lo: nat, hi: nat, k: nat, p: nat, n: nat)
    requires Sound(rs, fi, lo, hi) && k in rs && !rs[k].isFree && k <= p && p + n <= k + rs[k].size && n > 0
    ensures var rs' := Cut(rs, k, p, n);
      && Sound(rs', fi, lo, hi) && FreeSet(rs', lo, hi) == FreeSet(rs, lo, hi)
      && k in Used(rs) && Used(rs)[k] == rs[k].size && Used(rs') == Carve(Used(rs), k, p, n)[p := n]
  {
    assert k in Used(rs) && Used(rs)[k] == rs[k].size;
    hide Tiled, Coalesced, Cut, WellListed, Agree, FreeSet, Carve;
    ResizeKeeps(rs, fi, lo, hi, k, p, n);
    CarvedUsed(rs, lo, hi, k, p, n);
  }

  /** The greatest key below a region's start is the region that ends there. */
  lemma PreviousEnds(rs: Partition, lo: nat, hi: nat, p: nat, prev: nat)
    requires Tiled(rs, lo, hi) && p in rs && prev in rs && prev < p && forall j :: j in rs && j < p ==> j <= prev
    ensures prev + rs[prev].size == p
  {
    assert prev + rs[prev].size <= p && p + rs[p].size <= hi;
    assert End(rs, prev) <= p;
  }

  lemma FirstOrPrevious(rs: Partition, lo: nat, hi: nat, p: nat)
    requires Tiled(rs, lo, hi) && p in rs
    ensures (forall j :: j in rs ==> p <= j) ==> p == lo
    ensures forall prev :: prev in rs && prev < p && (forall j :: j in rs && j < p ==> j <= prev) ==> prev + rs[prev].size == p
  {
    forall prev | prev in rs && prev < p && forall j :: j in rs && j < p ==> j <= prev ensures prev + rs[prev].size == p {
      PreviousEnds(rs, lo, hi, p, prev);
    }
  }

  /** What the two indexes keep: the partition tiles the range, free regions are maximal, the lists hold exactly them. */
  ghost predicate Sound(rs: Partition, fi: Index, lo: nat, hi: nat) {
    Tiled(rs, lo, hi) && Coalesced(rs) && WellListed(fi) && Agree(rs, fi)
  }

  /** The region at `a` heads the list of the smallest adequate size. */
  ghost predicate BestFit(rs: Partition, fi: Index, a: nat, n: nat) {
    && a in rs && rs[a].isFree && n <= rs[a].size
    && (forall k :: k in rs && rs[k].isFree && n <= rs[k].size ==> rs[a].size <= rs[k].size)
    && rs[a].size in fi && |fi[rs[a].size]| > 0 && fi[rs[a].size][0] == a
  }

  lemma NoFit(rs: Partition, fi: Index, lo: nat, hi: nat, n: nat)
    requires Sound(rs, fi, lo, hi) && n > 0 && forall s :: s in fi ==> s < n
    ensures forall p :: !AllFree(rs, lo, hi, p, n)
  {
    forall p ensures !AllFree(rs, lo, hi, p, n) {
      assert forall k :: k in rs && rs[k].isFree ==> Listed(fi, rs[k].size, k);
      if AllFree(rs, lo, hi, p, n) {
        var k := RunHasRegion(rs, lo, hi, p, n);
      }
    }
  }

  lemma Fits(rs: Partition, fi: Index, lo: nat, hi: nat, size: nat, n: nat)
    requires Sound(rs, fi, lo, hi) && size in fi && n <= size && forall s :: s in fi && n <= s ==> size <= s
    ensures fi[size] != [] && var a := fi[size][0]; BestFit(rs, fi, a, n) && a in rs && rs[a] == Region(size, true) && AllFree(rs, lo, hi, a, n)
  {
    var a := fi[size][0];
    assert Listed(fi, size, a);
    forall k | k in rs && rs[k].isFree && n <= rs[k].size ensures size <= rs[k].size {
      assert Listed(fi, rs[k].size, k);
    }
    RegionAllFree(rs, lo, hi, a, a, n);
  }

  /** What allocating [p, p + n) out of the free region `k` makes of both indexes. */
  ghost predicate TakenFrom(rs: Partition, fi: Index, k: nat, p: nat, n: nat, rs': Partition, fi': Index) {
    && k in rs && rs[k].isFree && k <= p && p + n <= k + rs[k].size && n > 0 && p in Cut(rs, k, p, n)
    && rs' == SetFlag(Cut(rs, k, p, n), p, false) && fi' == TakenIndex(fi, rs[k].size, k, p, n)
  }

  lemma TakenSound(rs: Partition, fi: Index, lo: nat, hi: nat, k: nat, p: nat, n: nat, rs': Partition, fi': Index)
    requires Sound(rs, fi, lo, hi) && TakenFrom(rs, fi, k, p, n, rs', fi')
    ensures Sound(rs', fi', lo, hi) && Used(rs') == Used(rs)[p := n]
    ensures |FreeSet(rs, lo, hi)| == |FreeSet(rs', lo, hi)| + n
  {
    hide Tiled, Coalesced, WellListed, Agree, Cut, TakenIndex, SetFlag;
    Taken(rs, lo, hi, k, p, n);
    TakenAgree(rs, fi, lo, hi, k, p, n);
  }

  /** What FreePages makes of both indexes once it has found the region `k` to free from. */
  ghost predicate FreedFrom(rs: Partition, fi: Index, lo: nat, k: nat, p: nat, n: nat, prev: nat, rs': Partition, fi': Index) {
    && k in rs && !rs[k].isFree && k <= p && p + n <= k + rs[k].size && n > 0 && p in Cut(rs, k, p, n)
    && var rs1 := Marked(rs, k, p, n);
       && IsPrevious(rs1, lo, p, prev) && rs' == Released(rs1, p, prev)
       && fi' == FreedIndex(fi, MergeOf(rs1, p, prev))
  }

  lemma FreedUsed(rs: Partition, lo: nat, hi: nat, k: nat, p: nat, n: nat)
    requires Tiled(rs, lo, hi) && k in rs && !rs[k].isFree && k <= p && p + n <= k + rs[k].size && n > 0
    ensures k in Used(rs) && Used(rs)[k] == rs[k].size
    ensures Used(Cut(rs, k, p, n)) - {p} == Carve(Used(rs), k, p, n)
  {
    assert k in Used(rs) && Used(rs)[k] == rs[k].size;
    CarvedUsed(rs, lo, hi, k, p, n);
    hide Tiled, Cut, Used, Carve;
    assert Carve(Used(rs), k, p, n)[p := n] - {p} == Carve(Used(rs), k, p, n);
  }

  lemma FreedSound(rs: Partition, fi: Index, lo: nat, hi: nat, k: nat, p: nat, n: nat, prev: nat, rs': Partition, fi': Index)
    requires Sound(rs, fi, lo, hi) && FreedFrom(rs, fi, lo, k, p, n, prev, rs', fi')
    ensures Sound(rs', fi', lo, hi) && |FreeSet(rs', lo, hi)| == |FreeSet(rs, lo, hi)| + n
    ensures k in Used(rs) && Used(rs)[k] == rs[k].size && Used(rs') == Carve(Used(rs), k, p, n)
  {
    hide Tiled, Coalesced, WellListed, Agree, Cut, Marked, Released, FreedIndex, MergeOf, IsPrevious, Carve, Used;
    Freed(rs, lo, hi, k, p, n, prev);
    FreedAgree(rs, fi, lo, hi, k, p, n, prev);
    FreedUsed(rs, lo, hi, k, p, n);
  }

  /** The region with the greatest start not above `p` decides whether [p, p + n) is free. */
  lemma WhereFree(rs: Partition, fi: Index, lo: nat, hi: nat, p: nat, n: nat, found: Option<nat>)
    requires Sound(rs, fi, lo, hi) && n > 0
    requires found.None? <==> forall j :: j in rs ==> j > p
    requires found.Some? ==> found.value in rs && found.value <= p && forall j :: j in rs && j <= p ==> j <= found.value
    ensures AllFree(rs, lo, hi, p, n) <==>
      found.Some? && rs[found.value].isFree && p + n <= found.value + rs[found.value].size
  {
    if AllFree(rs, lo, hi, p, n) {
      var k := RunHasRegion(rs, lo, hi, p, n);
      assert found.Some? && k <= found.value;
      SameRegion(rs, lo, hi, found.value, k, found.value);
    }
    if found.Some? && rs[found.value].isFree && p + n <= found.value + rs[found.value].size {
      RegionAllFree(rs, lo, hi, found.value, p, n);
    }
  }

  /** And whether one allocated region contains it. */
  lemma WhereUsed(rs: Partition, lo: nat, hi: nat, p: nat, n: nat, found: nat, k: nat)
    requires Tiled(rs, lo, hi) && n > 0
    requires found in rs && found <= p && forall j :: j in rs && j <= p ==> j <= found
    requires k in rs && k <= p && p + n <= k + rs[k].size
    ensures k == found
  {
    SameRegion(rs, lo, hi, found, k, found);
  }

  /** The allocated region `k` is one FreePages would free [p, p + n) from. */
  ghost predicate Freeable(used: map<nat, nat>, p: nat, n: nat, exact: bool, k: nat) {
    k in used && k <= p && p + n <= k + used[k] && (exact ==> k == p && used[k] == n)
  }

  lemma ExactUsed(rs: Partition, p: nat, n: nat)
    ensures p in Used(rs) && Used(rs)[p] == n <==> p in rs && rs[p] == Region(n, false)
  {
  }

  lemma ExactFreeable(rs: Partition, p: nat, n: nat)
    ensures forall k: nat :: Freeable(Used(rs), p, n, true, k) <==> k == p && p in rs && rs[p] == Region(n, false)
  {
  }

  lemma PartFreeable(rs: Partition, fi: Index, lo: nat, hi: nat, p: nat, n: nat, found: Option<nat>)
    requires Sound(rs, fi, lo, hi) && n > 0
    requires found.None? <==> forall j :: j in rs ==> j > p
    requires found.Some? ==> found.value in rs && found.value <= p && forall j :: j in rs && j <= p ==> j <= found.value
    ensures forall k: nat :: Freeable(Used(rs), p, n, false, k) <==>
      found.Some? && k == found.value && !rs[k].isFree && p + n <= k + rs[k].size
  {
    forall k | Freeable(Used(rs), p, n, false, k) ensures found.Some? && k == found.value {
      WhereUsed(rs, lo, hi, p, n, found.value, k);
    }
  }

  function UnlistAll(fi: Index, regions: seq<(nat, nat)>): Index {
    if regions == [] then fi
    else Unlist(UnlistAll(fi, regions[..|regions| - 1]), regions[|regions| - 1].1, regions[|regions| - 1].0)
  }

  /** The neighbours that merge, in the order FreePages records them. */
  function Neighbours(g: Merge): seq<(nat, nat)> {
    (if g.prev.Some? then [g.prev.value] else []) + (if g.next.Some? then [g.next.value] else [])
  }

  lemma NeighboursUnlisted(fi: Index, g: Merge)
    ensures FreedIndex(fi, g) == Enlist(UnlistAll(fi, Neighbours(g)), g.size, g.start)
  {
    var l := Neighbours(g);
    if |l| == 2 {
      assert l[..1] == [g.prev.value];
      assert [g.prev.value][..0] == [];
      assert UnlistAll(fi, [g.prev.value]) == Unlist(UnlistAll(fi, []), g.prev.value.1, g.prev.value.0);
    } else if |l| == 1 {
      assert l[..0] == [];
    }
  }

  /** What the merges come to: the merged region replaces the region at `p` and the neighbours that merge. */
  function MergedAtOnce(rs1: Partition, p: nat, prev: nat, g: Merge): Partition {
    if g.prev.None? && g.next.None? then rs1
    else
      var rs2 := if g.prev.Some? then rs1 - {prev, p} else rs1;
      var rs3 := if g.next.Some? then rs2 - {g.next.value.0} else rs2;
      (if g.prev.None? then rs3 - {p} else rs3)[g.start := Region(Bits62(g.size), true)]
  }

  lemma ReleasedAtOnce(rs1: Partition, lo: nat, hi: nat, p: nat, prev: nat)
    requires Tiled(rs1, lo, hi) && hi <= PAGES && p in rs1 && rs1[p].isFree && IsPrevious(rs1, lo, p, prev)
    ensures Released(rs1, p, prev) == MergedAtOnce(rs1, p, prev, MergeOf(rs1, p, prev))
  {
    hide Tiled, Bits62;
    MergedFits(rs1, lo, hi, p, prev);
    PrevMerged(rs1, lo, hi, p, prev);
    var g, rs2, q := MergeOf(rs1, p, prev), MergePrev(rs1, p, prev), p + rs1[p].size;
    var rs' := Released(rs1, p, prev);
    if g.prev.Some? {
      assert rs2 == (rs1 - {p})[prev := Region(rs1[prev].size + rs1[p].size, true)];
      assert FreePair(rs2, prev) <==> g.next.Some?;
      assert rs' == if g.next.Some? then (rs2 - {q})[prev := Region(g.size, true)] else rs2;
    } else {
      assert FreePair(rs2, p) <==> g.next.Some?;
    }
  }

  lemma MergedFits(rs1: Partition, lo: nat, hi: nat, p: nat, prev: nat)
    requires Tiled(rs1, lo, hi) && hi <= PAGES && p in rs1 && prev in rs1
    ensures var g := MergeOf(rs1, p, prev); Bits62(g.size) == g.size
  {
    WithinEnd(rs1, lo, hi, p);
    WithinEnd(rs1, lo, hi, prev);
    if p + rs1[p].size in rs1 {
      WithinEnd(rs1, lo, hi, p + rs1[p].size);
    }
    hide Tiled;
  }

  // ---------- What the 64-bit tests let through ----------

  /** Away from the top nothing wraps. */
  lemma BelowAll(rs: Partition, lo: nat, hi: nat, p: nat, n: nat, isFree: bool)
    requires Tiled(rs, lo, hi) && hi < PAGES && p + n < PAGES
    ensures !Wraps(rs, p, n, isFree) && !BelowTop(rs, p, n, isFree) && !MergesOverTop(rs, p, n)
  {
    forall k: nat | k in rs ensures k + rs[k].size < PAGES {
      WithinEnd(rs, lo, hi, k);
    }
    hide Tiled;
    forall k: nat | IsLower(rs, p, k) ensures (p + n) % PAGES == p + n && (k + rs[k].size) % PAGES == k + rs[k].size {
    }
  }

  /** The end of [p, p + n) lies behind the region found for `p`, but not once it is taken modulo 2^64. */
  ghost predicate Wraps(rs: Partition, p: nat, n: nat, isFree: bool) {
    exists k: nat :: IsLower(rs, p, k) && rs[k].isFree == isFree && k + rs[k].size < p + n && (p + n) % PAGES <= (k + rs[k].size) % PAGES
  }

  /** [p, p + n) lies in a region that ends at 2^64, which is 0 for the test, and does not end there itself. */
  ghost predicate BelowTop(rs: Partition, p: nat, n: nat, isFree: bool) {
    exists k: nat :: k in rs && rs[k].isFree == isFree && k <= p && p + n < k + rs[k].size == PAGES
  }

  /** [p, p + n) ends at 2^64, and the region at address 0 would be free once it is freed: it is the range itself, or a free region that does not touch it. */
  predicate MergesOverTop(rs: Partition, p: nat, n: nat) {
    p + n == PAGES && 0 in rs && (p == 0 || (rs[0].isFree && rs[0].size < p))
  }

  /** FreePages finds an allocated region to free [p, p + n) from, and its test is right about it. */
  ghost predicate FreesPages(rs: Partition, p: nat, n: nat, exact: bool) {
    (exists k: nat :: Freeable(Used(rs), p, n, exact, k)) && (exact || !BelowTop(rs, p, n, false))
  }

  lemma WrapsIs(rs: Partition, p: nat, n: nat, k: nat, isFree: bool)
    requires IsLower(rs, p, k)
    ensures Wraps(rs, p, n, isFree) <==> rs[k].isFree == isFree && k + rs[k].size < p + n && (p + n) % PAGES <= (k + rs[k].size) % PAGES
  {
  }

  lemma BelowTopIs(rs: Partition, lo: nat, hi: nat, p: nat, n: nat, k: nat, isFree: bool)
    requires Tiled(rs, lo, hi) && IsLower(rs, p, k)
    ensures BelowTop(rs, p, n, isFree) <==> rs[k].isFree == isFree && p + n < k + rs[k].size == PAGES
  {
    forall j | j in rs && j <= p && p + n < j + rs[j].size ensures j == k {
      SameRegion(rs, lo, hi, p, j, k);
    }
    hide Tiled;
  }

  lemma EndAddress(e: nat)
    requires e <= PAGES
    ensures e % PAGES == if e == PAGES then 0 else e
  {
  }

  /** The test, for the region found. */
  lemma TestExact(rs: Partition, lo: nat, hi: nat, p: nat, n: nat, k: nat, isFree: bool)
    requires Tiled(rs, lo, hi) && hi <= PAGES && IsLower(rs, p, k) && p < PAGES && n > 0
    ensures var passes := rs[k].isFree == isFree && (p + n) % PAGES <= (k + rs[k].size) % PAGES;
      var fits := rs[k].isFree == isFree && p + n <= k + rs[k].size;
      (passes <==> (fits && !BelowTop(rs, p, n, isFree)) || Wraps(rs, p, n, isFree)) && (Wraps(rs, p, n, isFree) <==> passes && !fits)
  {
    hide Tiled, Wraps, BelowTop;
    WithinEnd(rs, lo, hi, k);
    WrapsIs(rs, p, n, k, isFree);
    BelowTopIs(rs, lo, hi, p, n, k, isFree);
    EndAddress(k + rs[k].size);
    if p + n <= PAGES {
      EndAddress(p + n);
    }
  }

  lemma SoundTiled(rs: Partition, fi: Index, lo: nat, hi: nat)
    requires Sound(rs, fi, lo, hi)
    ensures Tiled(rs, lo, hi) && Coalesced(rs)
  {
  }

  ghost function UsedSet(rs: Partition, lo: nat, hi: nat): set<nat> {
    set p | lo <= p < hi && PageIn(rs, p, false)
  }

  /** The counter kept as a difference is the number of used pages. */
  lemma UsedCounted(rs: Partition, lo: nat, hi: nat)
    requires Tiled(rs, lo, hi)
    ensures |UsedSet(rs, lo, hi)| + |FreeSet(rs, lo, hi)| == hi - lo
  {
    var u, f := UsedSet(rs, lo, hi), FreeSet(rs, lo, hi);
    forall p | lo <= p < hi ensures p in u <==> p !in f {
      var k := Covered(rs, lo, hi, p);
      PageFlag(rs, lo, hi, p, k);
    }
    hide PageIn, Tiled;
    assert u + f == Span(lo, hi - lo) && u !! f;
  }

  lemma InitialFree(first: nat, last: nat)
    requires first < last
    ensures |FreeSet(map[first := Region(last - first, true)], first, last)| == last - first
  {
    var rs := map[first := Region(last - first, true)];
    assert Tiled(rs, first, last);
    hide Tiled, PageIn;
    forall p | first <= p < last ensures PageIn(rs, p, true) {
      PageFlag(rs, first, last, p, first);
    }
    assert FreeSet(rs, first, last) == Span(first, last - first);
  }

  lemma InitialSound(first: nat, last: nat)
    requires first < last
    ensures var rs := map[first := Region(last - first, true)];
      && Sound(rs, map[last - first := [first]], first, last) && Used(rs) == map[]
      && |FreeSet(rs, first, last)| == last - first
  {
    hide FreeSet, PageIn;
    var rs := map[first := Region(last - first, true)];
    assert Used(rs) == map[] by {
      hide Tiled;
    }
    InitialFree(first, last);
  }

  // ---------- Resizing ----------

  /** When resizing an allocated region keeps the two indexes in order, and what it does then. */
  lemma ResizeExact(rs: Partition, fi: Index, lo: nat, hi: nat, p: nat, newStart: nat, newCount: nat)
    requires Sound(rs, fi, lo, hi) && hi <= PAGES && p in rs && !rs[p].isFree && newStart < PAGES && newStart + newCount <= PAGES
    ensures var n, from, rs' := rs[p].size, if p < newStart then newStart else p, Resized(rs, p, newStart, newCount);
      && (Sound(rs', fi, lo, hi) <==> Within(p, n, newStart, newCount) || KeysTaken(rs, p, n, newStart, newCount))
      && (Within(p, n, newStart, newCount) ==>
          && FreeSet(rs', lo, hi) == FreeSet(rs, lo, hi) && p in Used(rs) && Used(rs)[p] == n
          && Used(rs') == Carve(Used(rs), p, from, newCount)[from := newCount])
      && (KeysTaken(rs, p, n, newStart, newCount) ==> rs' == rs)
  {
    SoundTiled(rs, fi, lo, hi);
    hide Tiled, Coalesced, WellListed, Agree, Used, Carve, FreeSet, Resized, KeysTaken, Cut;
    var n, from := rs[p].size, if p < newStart then newStart else p;
    if Within(p, n, newStart, newCount) {
      ResizedWithin(rs, lo, hi, p, newStart, newCount);
      ResizedSound(rs, fi, lo, hi, p, from, newCount);
      WithinNotTaken(rs, p, n, newStart, newCount);
    } else if KeysTaken(rs, p, n, newStart, newCount) {
      ResizedNothing(rs, lo, hi, p, newStart, newCount);
    } else {
      ResizedBroken(rs, lo, hi, p, newStart, newCount);
    }
  }

  // ---------- Allocating and freeing at once ----------

  /** The list of a size with its head moved to the end. */
  ghost function RotateList(fi: Index, size: nat): Index {
    if size in fi && fi[size] != [] then fi[size := fi[size][1..] + [fi[size][0]]] else fi
  }

  /** The rotation shows exactly if another free region has that size. */
  lemma RotationVisible(fi: Index, size: nat)
    requires WellListed(fi) && size in fi
    ensures RotateList(fi, size) == fi <==> |fi[size]| == 1
    ensures forall s, a :: Listed(RotateList(fi, size), s, a) <==> Listed(fi, s, a)
  {
    var l := fi[size];
    var l' := l[1..] + [l[0]];
    assert l == [l[0]] + l[1..];
    assert forall a :: a in l' <==> a in l;
    if |l| > 1 {
      assert l'[0] == l[1];
      assert RotateList(fi, size)[size] == l';
    } else {
      assert l' == l && fi[size := l] == fi;
    }
  }

  /** No other free region is as large as the free region at `a`. */
  ghost predicate OnlyOfItsSize(rs: Partition, a: nat) {
    forall b :: b in rs && a in rs && rs[b].isFree && rs[b].size == rs[a].size ==> b == a
  }

  /** Freeing what was just allocated gives back the same lists exactly if no other free region has the size of this one. */
  lemma RotationSeen(rs: Partition, fi: Index, lo: nat, hi: nat, a: nat, n: nat)
    requires Sound(rs, fi, lo, hi) && BestFit(rs, fi, a, n)
    ensures RotateList(fi, rs[a].size) == fi <==> OnlyOfItsSize(rs, a)
  {
    var size := rs[a].size;
    RotationVisible(fi, size);
    var l := fi[size];
    assert Distinct(l) && l[0] == a;
    if |l| > 1 {
      assert l[1] in l && Listed(fi, size, l[1]) && l[1] != a;
    } else {
      forall b | b in rs && rs[b].isFree && rs[b].size == size ensures b == a {
        assert Listed(fi, size, b);
      }
    }
  }

  lemma {:induction false} WithoutLast(l: seq<nat>, a: nat)
    requires a !in l
    ensures Without(l + [a], a) == l
  {
    if l != [] {
      assert (l + [a])[1..] == l[1..] + [a];
      WithoutLast(l[1..], a);
    } else {
      assert l + [a] == [a];
    }
  }

  /** Listing a region and taking it off again changes nothing. */
  lemma UnlistEnlist(fi: Index, size: nat, a: nat)
    requires WellListed(fi) && !Listed(fi, size, a)
    ensures Unlist(Enlist(fi, size, a), size, a) == fi
  {
    WithoutLast(if size in fi then fi[size] else [], a);
  }

  /** Taking the head of a list off and listing it again rotates the list. */
  lemma EnlistUnlist(fi: Index, size: nat)
    requires WellListed(fi) && size in fi
    ensures Enlist(Unlist(fi, size, fi[size][0]), size, fi[size][0]) == RotateList(fi, size)
  {
    assert Without(fi[size], fi[size][0]) == fi[size][1..];
  }

  /** Freeing a region just taken from the start of a maximal free region merges it with its remainder only. */
  lemma MergeBack(rs: Partition, lo: nat, hi: nat, a: nat, n: nat, prev: nat)
    requires Tiled(rs, lo, hi) && Coalesced(rs) && a in rs && rs[a].isFree && 0 < n <= rs[a].size
    requires a in Cut(rs, a, a, n)
    ensures var rs1 := SetFlag(Cut(rs, a, a, n), a, false);
      && a in rs1 && rs1[a] == Region(n, false) && a in Cut(rs1, a, a, n)
      && (IsPrevious(Marked(rs1, a, a, n), lo, a, prev) ==>
        MergeOf(Marked(rs1, a, a, n), a, prev) ==
          Merge(None, if n < rs[a].size then Some((a + n, rs[a].size - n)) else None, a, rs[a].size))
  {
    hide Tiled, Coalesced;
    CutFields(rs, lo, hi, a, a, n);
    NeighboursUsed(rs, lo, hi, a);
    var rs1 := SetFlag(Cut(rs, a, a, n), a, false);
    CutWhole(rs1, a);
    hide Cut;
  }

  lemma CutWhole(rs: Partition, a: nat)
    requires a in rs
    ensures Cut(rs, a, a, rs[a].size) == rs
  {
  }

  /** The neighbours of a free region are in use. */
  lemma NeighboursUsed(rs: Partition, lo: nat, hi: nat, a: nat)
    requires Tiled(rs, lo, hi) && Coalesced(rs) && a in rs && rs[a].isFree
    ensures forall k :: k in rs ==> 0 < rs[k].size && (k + rs[k].size == a ==> !rs[k].isFree)
    ensures a + rs[a].size in rs ==> !rs[a + rs[a].size].isFree
  {
  }

  lemma IndexBack(rs: Partition, fi: Index, lo: nat, hi: nat, a: nat, n: nat)
    requires Sound(rs, fi, lo, hi) && BestFit(rs, fi, a, n) && n > 0
    ensures FreedIndex(TakenIndex(fi, rs[a].size, a, a, n),
                       Merge(None, if n < rs[a].size then Some((a + n, rs[a].size - n)) else None, a, rs[a].size))
         == RotateList(fi, rs[a].size)
  {
    var size := rs[a].size;
    assert n < size ==> !Listed(fi, size - n, a + n) by {
      Inside(rs, lo, hi, a, a + n);
    }
    UnlistMeaning(fi, size, a);
    EnlistUnlist(fi, size);
    hide Sound, WellListed, Listed, Unlist, Enlist, RotateList;
    if n < size {
      UnlistEnlist(Unlist(fi, size, a), size - n, a + n);
    }
  }

  lemma UsedBack(rs: Partition, a: nat, n: nat)
    requires a in rs && rs[a].isFree
    ensures Carve(Used(rs)[a := n], a, a, n) == Used(rs)
  {
  }

  lemma RoundTrip(rs: Partition, fi: Index, lo: nat, hi: nat, a: nat, n: nat,
                  rs1: Partition, fi1: Index, prev: nat, rs2: Partition, fi2: Index)
    requires Sound(rs, fi, lo, hi) && BestFit(rs, fi, a, n)
    requires TakenFrom(rs, fi, a, a, n, rs1, fi1) && FreedFrom(rs1, fi1, lo, a, a, n, prev, rs2, fi2)
    ensures rs2 == rs && fi2 == RotateList(fi, rs[a].size)
  {
    TakenSound(rs, fi, lo, hi, a, a, n, rs1, fi1);
    FreedSound(rs1, fi1, lo, hi, a, a, n, prev, rs2, fi2);
    UsedBack(rs, a, n);
    assert rs2 == rs by {
      hide Tiled, Coalesced, WellListed, Agree, Used, TakenFrom, FreedFrom;
      Canonical(rs, rs2, lo, hi);
    }
    hide Used, Carve, Cut, MergeOf, FreedIndex, TakenIndex, RotateList, Tiled, Coalesced, IsPrevious;
    MergeBack(rs, lo, hi, a, n, prev);
    IndexBack(rs, fi, lo, hi, a, n);
  }

  // ---------- The steps on the two trees ----------

  /** The node keeps `n` pages; the rest becomes a node of its own, which is linked in if its key is not taken. */
  method SplitAPTNode(rs: Partition, node: Node, n: nat) returns (rs': Partition, rest: Node)
    ensures (rs', rest) == Divided(rs, node, n)
  {
    rs' := rs;
    if node.linked {
      rs' := rs'[node.key := Region(n % SIZES, node.data.isFree)];
    }
    var key, data := (node.key + n) % PAGES, Region((node.data.size - n) % SIZES, node.data.isFree);
    rest := Node(key, data, key !in rs');
    if rest.linked {
      rs' := rs'[key := data];
    }
  }

  /** Takes a region off the list of its size; a list that becomes empty leaves the tree. */
  method TakeOff(fi: Index, size: nat, a: nat) returns (fi': Index)
    ensures fi' == Unlist(fi, size, a)
  {
    fi' := fi;
    if size in fi {
      var list := Without(fi[size], a);
      if list == [] {
        fi' := fi - {size};
      } else {
        fi' := fi[size := list];
      }
    }
  }

  method PutOn(fi: Index, size: nat, a: nat) returns (fi': Index)
    ensures fi' == Enlist(fi, size, a)
  {
    fi' := fi;
    if size !in fi {
      fi' := fi[size := []];
    }
    fi' := fi'[size := fi'[size] + [a]];
  }

  /** Makes [p, p + n) a region of its own. */
  method Isolate(rs: Partition, k: nat, p: nat, n: nat) returns (rs': Partition)
    requires k in rs
    ensures rs' == Resized(rs, k, p, n)
  {
    var node := Node(k, rs[k], true);
    rs' := rs;
    if k < p {
      rs', node := SplitAPTNode(rs', node, p - k);
    }
    if node.data.size != n {
      var rest;
      rs', rest := SplitAPTNode(rs', node, n);
    }
  }

  /** The pages from `p` on that the region has, `n` at most. */
  function Available(rs: Partition, k: nat, p: nat, n: nat): nat
    requires k in rs && p < k + rs[k].size
  {
    if n < k + rs[k].size - p then n else k + rs[k].size - p
  }

  /**
   * The second half of AllocatePages(ptr, numPages): the steps once the region is found, up to the counters. If the region
   * has fewer pages they take all of them; if `p` lies behind the region the tree no longer tiles the range.
   */
  method TakeOut(rs: Partition, fi: Index, ghost lo: nat, ghost hi: nat, k: nat, p: nat, n: nat) returns (rs': Partition, fi': Index)
    requires Tiled(rs, lo, hi) && hi <= PAGES && IsLower(rs, p, k) && rs[k].isFree && p < PAGES && n > 0
    ensures p < k + rs[k].size ==> TakenFrom(rs, fi, k, p, Available(rs, k, p, n), rs', fi')
    ensures p >= k + rs[k].size ==> !Tiled(rs', lo, hi)
  {
    hide Tiled, Unlist, Enlist, Divided;
    PlacedAt(rs, lo, hi, k, p);
    fi' := TakeOff(fi, rs[k].size, k);
    var node := Node(k, rs[k], true);
    rs' := rs;
    if k < p {
      rs', node := SplitAPTNode(rs', node, p - k);
      fi' := PutOn(fi', p - k, k);
    }
    ghost var rs1 := rs';
    if node.data.size > n {
      PlacedSplit(rs1, lo, hi, node, n);
      var rest;
      rs', rest := SplitAPTNode(rs', node, n);
      fi' := PutOn(fi', rest.data.size, rest.key);
    }
    rs' := rs'[node.key := rs'[node.key].(isFree := false)];
    if p >= k + rs[k].size {
      BehindEnd(rs', lo, hi, p);
    }
  }

  /** A node that is split stays linked in; in a tree that tiles the range the split is one of regions. */
  lemma PlacedSplit(rs: Partition, lo: nat, hi: nat, node: Node, n: nat)
    requires node.linked && node.key in rs && rs[node.key] == node.data && 0 < n < node.data.size && hi <= PAGES
    ensures node.key in Divided(rs, node, n).0
    ensures Tiled(rs, lo, hi) ==> Divided(rs, node, n) == (Split(rs, node.key, n), Node(node.key + n, Region(node.data.size - n, node.data.isFree), true))
  {
    if Tiled(rs, lo, hi) {
      DividedWithin(rs, lo, hi, node.key, n);
    }
    hide Tiled;
  }

  lemma BehindEnd(rs: Partition, lo: nat, hi: nat, p: nat)
    requires p in rs && hi <= p
    ensures !Tiled(rs, lo, hi)
  {
  }

  /** The same for AllocatePages(numPages), which works on the lists first and on the partition after. */
  method TakeFirst(rs: Partition, fi: Index, ghost lo: nat, ghost hi: nat, size: nat, n: nat) returns (rs': Partition, fi': Index, first: nat)
    requires Tiled(rs, lo, hi) && hi <= PAGES && size in fi && fi[size] != [] && fi[size][0] in rs && rs[fi[size][0]] == Region(size, true) && 0 < n <= size
    ensures first == fi[size][0] && TakenFrom(rs, fi, first, first, n, rs', fi')
  {
    first := fi[size][0];
    CutFields(rs, lo, hi, first, first, n);
    hide Tiled, Unlist, Enlist;
    fi' := TakeOff(fi, size, first);
    if size > n {
      fi' := PutOn(fi', size - n, first + n);
    }
    var node := FindNodeOrLower(rs.Keys, first);
    assert node == Some(first);
    rs' := rs;
    if rs'[node.value].size > n {
      var rest;
      PlacedSplit(rs, lo, hi, Node(first, rs[first], true), n);
      rs', rest := SplitAPTNode(rs', Node(first, rs[first], true), n);
    }
    assert rs' == Cut(rs, first, first, n);
    rs' := rs'[first := rs'[first].(isFree := false)];
  }

  /** The greatest key below `p`; `p` itself if there is none. */
  ghost predicate IsBefore(rs: Partition, p: nat, prev: nat) {
    prev in rs && prev <= p && (forall j :: j in rs && j < p ==> j <= prev) && (prev == p ==> forall j :: j in rs ==> p <= j)
  }

  /** The previous region; `p` itself if it is the first. */
  method PreviousNode(rs: Partition, p: nat) returns (prev: nat)
    requires p in rs
    ensures IsBefore(rs, p, prev)
  {
    if p == 0 {
      return p;
    }
    var found := FindNodeOrLower(rs.Keys, p - 1);
    prev := if found.Some? then found.value else p;
  }

  /** Takes the previous region and the one at `p` out of the partition, if they merge. */
  method AbsorbPrevious(rs: Partition, p: nat, before: nat) returns (rs': Partition, removed: seq<(nat, nat)>)
    requires p in rs && before in rs
    ensures if Merges(rs, before, p) then removed == [(before, rs[before].size)] && rs' == rs - {before, p} else removed == [] && rs' == rs
  {
    rs', removed := rs, [];
    var data := rs[before];
    if data.isFree && before + data.size == p {
      removed := [(before, data.size)];
      rs' := rs' - {before};
      rs' := rs' - {p};
      assert rs' == rs - {before, p};
    }
  }

  /** Takes the next region out of the partition, if it merges. */
  method AbsorbNext(rs: Partition, q: nat) returns (rs': Partition, removed: seq<(nat, nat)>)
    ensures if q in rs && rs[q].isFree then removed == [(q, rs[q].size)] && rs' == rs - {q} else removed == [] && rs' == rs
  {
    rs', removed := rs, [];
    var found := FindNodeOrHigher(rs.Keys, q);
    if found.Some? && rs[found.value].isFree && q == found.value {
      removed := [(q, rs[q].size)];
      rs' := rs - {q};
    }
  }

  /** The neighbours that FreePages finds: the next one by an address that is 0 if the range ends at 2^64. */
  function MergeFound(rs1: Partition, p: nat, prev: nat): Merge
    requires p in rs1 && prev in rs1
  {
    var q := (p + rs1[p].size) % PAGES;
    var before := if Merges(rs1, prev, p) then Some((prev, rs1[prev].size)) else None;
    var rs2 := if before.Some? then rs1 - {prev, p} else rs1;
    var after := if q in rs2 && rs2[q].isFree then Some((q, rs2[q].size)) else None;
    Merge(before, after, if before.Some? then prev else p,
          rs1[p].size + (if before.Some? then before.value.1 else 0) + (if after.Some? then after.value.1 else 0))
  }

  /** Steps 2 and 3 of FreePages: replaces the region at `p` and the neighbours that merge by one region. */
  method MergeInto(rs: Partition, p: nat, n: nat, before: nat)
    returns (rs': Partition, removed: seq<(nat, nat)>, first: nat, size: nat)
    requires p in rs && rs[p] == Region(n, true) && before in rs
    ensures var g := MergeFound(rs, p, before);
      rs' == MergedAtOnce(rs, p, before, g) && removed == Neighbours(g) && first == g.start && size == g.size
  {
    first, size := p, n;
    rs', removed := AbsorbPrevious(rs, p, before);
    if |removed| == 1 {
      first, size := before, size + removed[0].1;
    }
    var next;
    rs', next := AbsorbNext(rs', (p + n) % PAGES);
    if |next| == 1 {
      size := size + next[0].1;
      if |removed| == 0 {
        rs' := rs' - {p};
      }
    }
    removed := removed + next;
    if |removed| >= 1 {
      rs' := rs'[first := Region(Bits62(size), true)];
    }
  }

  /** In a tree that tiles the range these are the neighbours, unless the merge goes over the top. */
  lemma MergeFoundIs(rs: Partition, lo: nat, hi: nat, k: nat, p: nat, n: nat, prev: nat)
    requires Tiled(rs, lo, hi) && Coalesced(rs) && hi <= PAGES && k in rs && !rs[k].isFree && k <= p && p + n <= k + rs[k].size && n > 0
    requires p in Cut(rs, k, p, n) && IsBefore(Marked(rs, k, p, n), p, prev) && !MergesOverTop(rs, p, n)
    ensures IsPrevious(Marked(rs, k, p, n), lo, p, prev) && MergeFound(Marked(rs, k, p, n), p, prev) == MergeOf(Marked(rs, k, p, n), p, prev)
  {
    hide Tiled, Cut, Coalesced, Marked, MergesOverTop, Used, Merges;
    var rs1 := Marked(rs, k, p, n);
    MarkedSound(rs, lo, hi, k, p, n);
    BeforeIsPrevious(rs1, lo, hi, p, prev);
    PrevMerged(rs1, lo, hi, p, prev);
    WithinEnd(rs1, lo, hi, p);
    if p + n == PAGES {
      assert (p + n) % PAGES == 0;
      if p + n in rs1 {
        BehindEnd(rs1, lo, hi, p + n);
        assert false;
      }
      NothingOverTop(rs, lo, hi, k, p, n, prev);
    } else {
      assert (p + n) % PAGES == p + n;
    }
  }

  lemma BeforeIsPrevious(rs: Partition, lo: nat, hi: nat, p: nat, prev: nat)
    requires Tiled(rs, lo, hi) && p in rs && IsBefore(rs, p, prev)
    ensures IsPrevious(rs, lo, p, prev)
  {
    FirstOrPrevious(rs, lo, hi, p);
    hide Tiled;
  }

  /** A range that ends at 2^64 finds no free region at address 0 but the one before it. */
  lemma NothingOverTop(rs: Partition, lo: nat, hi: nat, k: nat, p: nat, n: nat, prev: nat)
    requires Tiled(rs, lo, hi) && hi <= PAGES && k in rs && !rs[k].isFree && k <= p && p + n <= k + rs[k].size && n > 0 && p + n == PAGES
    requires p in Cut(rs, k, p, n) && IsPrevious(Marked(rs, k, p, n), lo, p, prev) && !MergesOverTop(rs, p, n)
    ensures var rs1 := Marked(rs, k, p, n); 0 in rs1 && rs1[0].isFree ==> p != 0 && prev == 0 && Merges(rs1, prev, p)
  {
    var rs1 := Marked(rs, k, p, n);
    CutFields(rs, lo, hi, k, p, n);
    if 0 in rs1 && rs1[0].isFree {
      if p == 0 {
        assert false;
      }
      assert 0 in rs && rs[0].isFree && rs[0] == rs1[0];
      assert rs[0].size >= p && 0 < k && rs[0].size <= k;
      assert prev + rs1[prev].size == p || p == lo;
      ZeroBefore(rs, lo, hi, k, p, n, prev);
    }
  }

  lemma ZeroBefore(rs: Partition, lo: nat, hi: nat, k: nat, p: nat, n: nat, prev: nat)
    requires Tiled(rs, lo, hi) && hi <= PAGES && k in rs && !rs[k].isFree && k <= p && p + n <= k + rs[k].size && n > 0 && 0 < p
    requires p in Cut(rs, k, p, n) && IsPrevious(Marked(rs, k, p, n), lo, p, prev) && 0 in rs && rs[0] == Region(p, true)
    ensures prev == 0
  {
    var rs1 := Marked(rs, k, p, n);
    MarkedTiled(rs, lo, hi, k, p, n);
    CutFields(rs, lo, hi, k, p, n);
    hide Cut;
    assert 0 in rs1 && rs1[0].size == p;
    assert lo == 0;
    EndsUnique(rs1, lo, hi, 0, prev);
  }

  lemma MarkedTiled(rs: Partition, lo: nat, hi: nat, k: nat, p: nat, n: nat)
    requires Tiled(rs, lo, hi) && k in rs && k <= p && p + n <= k + rs[k].size && n > 0 && p in Cut(rs, k, p, n)
    ensures Tiled(Marked(rs, k, p, n), lo, hi)
  {
    hide Tiled, Cut;
    CutTiled(rs, lo, hi, k, p, n);
    FlagTiled(Cut(rs, k, p, n), lo, hi, p, true);
  }

  /** What is listed does not end behind the range. */
  lemma ListedWithin(rs: Partition, fi: Index, lo: nat, hi: nat, a: nat, size: nat)
    requires Sound(rs, fi, lo, hi) && Listed(fi, size, a)
    ensures a in rs && rs[a] == Region(size, true) && a + size <= hi
  {
    WithinEnd(rs, lo, hi, a);
  }

  /** The two ways in which FreePages leaves the indexes out of order: a range that wraps, and a merge over the top. */
  lemma ReleasedWrong(rs: Partition, rs': Partition, fi': Index, lo: nat, hi: nat, k: nat, p: nat, n: nat, prev: nat)
    requires Tiled(rs, lo, hi) && Coalesced(rs) && hi <= PAGES && IsLower(rs, p, k) && !rs[k].isFree && p < PAGES && 0 < n < SIZES
    requires var rs0 := Resized(rs, k, p, n);
      && p in rs0 && rs0[p] == Region(n, false) && rs.Keys <= rs0.Keys
      && var rs1 := SetFlag(rs0, p, true);
         && IsBefore(rs1, p, prev) && var g := MergeFound(rs1, p, prev);
         rs' == MergedAtOnce(rs1, p, prev, g) && Listed(fi', g.size, g.start)
    requires if p + n <= k + rs[k].size then MergesOverTop(rs, p, n) else PAGES <= p + n
    ensures !Sound(rs', fi', lo, hi)
  {
    var rs0 := Resized(rs, k, p, n);
    var rs1 := SetFlag(rs0, p, true);
    var g := MergeFound(rs1, p, prev);
    assert g.start <= p && g.start + g.size >= p + n;
    if Sound(rs', fi', lo, hi) {
      hide Resized;
      ListedWithin(rs', fi', lo, hi, g.start, g.size);
      if p + n <= k + rs[k].size {
        OverTop(rs, lo, hi, k, p, n, prev);
        assert false;
      }
      Overlapped(rs, rs1, rs', lo, hi, k, p, n, prev);
      assert false;
    }
  }

  lemma OverTop(rs: Partition, lo: nat, hi: nat, k: nat, p: nat, n: nat, prev: nat)
    requires Tiled(rs, lo, hi) && hi <= PAGES && k in rs && !rs[k].isFree && k <= p && p + n <= k + rs[k].size && n > 0 && MergesOverTop(rs, p, n)
    requires p in Resized(rs, k, p, n) && Resized(rs, k, p, n)[p].size == n && IsBefore(SetFlag(Resized(rs, k, p, n), p, true), p, prev)
    ensures var g := MergeFound(SetFlag(Resized(rs, k, p, n), p, true), p, prev); g.start + g.size > PAGES
  {
    ResizedWithin(rs, lo, hi, k, p, n);
    CutFields(rs, lo, hi, k, p, n);
    hide Resized, Cut;
    var rs1 := SetFlag(Resized(rs, k, p, n), p, true);
    Positive(rs, lo, hi, 0);
    assert 0 in rs1 && rs1[0].isFree && rs1[0].size > 0 && (p != 0 ==> rs1[0] == rs[0]);
    assert (p + n) % PAGES == 0;
    hide Tiled;
  }

  lemma Overlapped(rs: Partition, rs1: Partition, rs': Partition, lo: nat, hi: nat, k: nat, p: nat, n: nat, prev: nat)
    requires Tiled(rs, lo, hi) && hi <= PAGES && IsLower(rs, p, k) && p < PAGES && p + n > k + rs[k].size && PAGES <= p + n && rs.Keys <= rs1.Keys
    requires p in rs1 && rs1[p].size == n && IsBefore(rs1, p, prev) && rs' == MergedAtOnce(rs1, p, prev, MergeFound(rs1, p, prev))
    ensures var g := MergeFound(rs1, p, prev); !(Tiled(rs', lo, hi) && g.start in rs' && rs'[g.start].size == g.size)
  {
    var g, e := MergeFound(rs1, p, prev), End(rs, k);
    assert g.start <= p && g.start + g.size >= p + n;
    WithinEnd(rs, lo, hi, k);
    if p + n <= hi {
      assert (p + n) % PAGES == 0;
      if e <= p {
        LastRegion(rs, lo, hi, k, p);
        assert false;
      }
      assert e in rs && e in rs1;
      assert e in rs';
    }
  }

  /** Step 4: takes the merged neighbours off their lists. */
  method TakeAllOff(fi: Index, removed: seq<(nat, nat)>) returns (fi': Index)
    ensures fi' == UnlistAll(fi, removed)
  {
    fi' := fi;
    for i := 0 to |removed|
      invariant fi' == UnlistAll(fi, removed[..i])
    {
      assert removed[..i + 1][..i] == removed[..i];
      fi' := TakeOff(fi', removed[i].1, removed[i].0);
    }
    assert removed[..|removed|] == removed;
  }

  /** The steps of FreePages once the region is found, up to the counters. */
  method Release(rs: Partition, fi: Index, ghost lo: nat, ghost hi: nat, k: nat, p: nat, n: nat)
    returns (rs': Partition, fi': Index, ghost prev: nat)
    requires Tiled(rs, lo, hi) && Coalesced(rs) && hi <= PAGES && IsLower(rs, p, k) && !rs[k].isFree && p < PAGES && 0 < n < SIZES
    requires p + n <= k + rs[k].size || PAGES <= p + n
    ensures p + n <= k + rs[k].size && !MergesOverTop(rs, p, n) ==> FreedFrom(rs, fi, lo, k, p, n, prev, rs', fi')
    ensures p + n > k + rs[k].size || MergesOverTop(rs, p, n) ==> !Sound(rs', fi', lo, hi)
  {
    hide Tiled, Coalesced, Released, MergeOf, Cut, Neighbours, FreedIndex, UnlistAll, MergedAtOnce, MergeFound, Resized, Sound, MergesOverTop, IsBefore;
    ResizedAt(rs, lo, hi, k, p, n);
    var rs1 := Isolate(rs, k, p, n);
    rs1 := rs1[p := rs1[p].(isFree := true)];
    var before := PreviousNode(rs1, p);
    prev := before;
    var removed, first, size;
    rs', removed, first, size := MergeInto(rs1, p, n, before);
    fi' := TakeAllOff(fi, removed);
    fi' := PutOn(fi', size, first);
    if p + n <= k + rs[k].size && !MergesOverTop(rs, p, n) {
      ReleasedRight(rs, fi, rs', fi', lo, hi, k, p, n, prev);
    } else {
      ReleasedWrong(rs, rs', fi', lo, hi, k, p, n, prev);
    }
  }

  lemma ReleasedRight(rs: Partition, fi: Index, rs': Partition, fi': Index, lo: nat, hi: nat, k: nat, p: nat, n: nat, prev: nat)
    requires Tiled(rs, lo, hi) && Coalesced(rs) && hi <= PAGES && k in rs && !rs[k].isFree && k <= p && p + n <= k + rs[k].size && n > 0 && !MergesOverTop(rs, p, n)
    requires p in Resized(rs, k, p, n) && var rs1 := SetFlag(Resized(rs, k, p, n), p, true);
      && IsBefore(rs1, p, prev) && var g := MergeFound(rs1, p, prev);
      rs' == MergedAtOnce(rs1, p, prev, g) && fi' == Enlist(UnlistAll(fi, Neighbours(g)), g.size, g.start)
    ensures FreedFrom(rs, fi, lo, k, p, n, prev, rs', fi')
  {
    hide Tiled, Coalesced, Released, MergeOf, Cut, Neighbours, FreedIndex, UnlistAll, MergedAtOnce, MergeFound, Resized, MergesOverTop, IsBefore, Enlist, Used;
    ResizedWithin(rs, lo, hi, k, p, n);
    MarkedSound(rs, lo, hi, k, p, n);
    MergeFoundIs(rs, lo, hi, k, p, n, prev);
    ReleasedAtOnce(Marked(rs, k, p, n), lo, hi, p, prev);
    NeighboursUnlisted(fi, MergeOf(Marked(rs, k, p, n), p, prev));
  }

  /** The forEach of Fork over the all-pages tree. */
  method CopyRegions(rs: Partition) returns (rs': Partition)
    ensures rs' == rs
  {
    rs' := map[];
    var keys := rs.Keys;
    while keys != {}
      invariant keys <= rs.Keys && rs' == rs - keys
      decreases keys
    {
      var k :| k in keys;
      rs' := rs'[k := rs[k]];
      keys := keys - {k};
    }
  }

  /** The forEach of Fork over the free-pages tree, copying each list node by node. */
  method CopyLists(fi: Index) returns (fi': Index)
    ensures fi' == fi
  {
    fi' := map[];
    var sizes := fi.Keys;
    while sizes != {}
      invariant sizes <= fi.Keys && fi' == fi - sizes
      decreases sizes
    {
      var k :| k in sizes;
      var list: seq<nat> := [];
      for i := 0 to |fi[k]|
        invariant list == fi[k][..i]
      {
        list := list + [fi[k][i]];
      }
      assert list == fi[k];
      fi' := fi'[k := list];
      sizes := sizes - {k};
    }
  }

  class VMRegionAllocator {
    var start: nat
    var limit: nat
    var allPages: Partition
    var freeLists: Index
    var freePageCount: int
    var usedPageCount: int
    var reservedPageCount: int
    var totalPageCount: int

    ghost predicate Valid()
      reads this
    {
      && Sound(allPages, freeLists, start, limit)
      && freePageCount == |FreeSet(allPages, start, limit)| && reservedPageCount == 0
      && freePageCount + usedPageCount + reservedPageCount == totalPageCount == limit - start && limit <= PAGES
    }

    /** `n` pages went from free to used (from used to free, if negative); the range stays. */
    twostate predicate Moved(n: int)
      reads this
    {
      && start == old(start) && limit == old(limit) && totalPageCount == old(totalPageCount)
      && freePageCount == old(freePageCount) - n && usedPageCount == old(usedPageCount) + n
    }

    /** The constructor followed by Init, for a range of page numbers; 0 and 0 stand for all of memory. */
    constructor (first: nat, end: nat)
      requires first < end <= PAGES || first == end == 0
      ensures Valid() && start == first && limit == (if end == 0 then PAGES else end)
      ensures Used(allPages) == map[] && freePageCount == limit - first
    {
      var last := if first == 0 && end == 0 then PAGES else end;
      start, limit := first, last;
      allPages, freeLists := map[first := Region(last - first, true)], map[last - first := [first]];
      freePageCount, usedPageCount, reservedPageCount, totalPageCount := last - first, 0, 0, last - first;
      InitialSound(first, last);
    }

    /** AllocatePages(numPages): best fit, at the start of a smallest adequate free region. */
    method AllocatePages(n: nat) returns (r: Option<nat>)
      requires Valid() && n > 0
      modifies this
      ensures Valid()
      ensures r.None? <==> forall p :: !AllFree(old(allPages), start, limit, p, n)
      ensures r.None? ==> Moved(0) && allPages == old(allPages) && freeLists == old(freeLists)
      ensures r.Some? ==> Moved(n) && Used(allPages) == Used(old(allPages))[r.value := n]
      ensures r.Some? ==> BestFit(old(allPages), old(freeLists), r.value, n)
      ensures r.Some? ==> TakenFrom(old(allPages), old(freeLists), r.value, r.value, n, allPages, freeLists)
    {
      hide Sound, AllFree, Used, FreeSet, BestFit, TakenFrom, Tiled, Coalesced;
      var found := FindNodeOrHigher(freeLists.Keys, n);
      if found.None? {
        NoFit(allPages, freeLists, start, limit, n);
        return None;
      }
      Fits(allPages, freeLists, start, limit, found.value, n);
      SoundTiled(allPages, freeLists, start, limit);
      var first;
      allPages, freeLists, first := TakeFirst(allPages, freeLists, start, limit, found.value, n);
      TakenSound(old(allPages), old(freeLists), start, limit, first, first, n, allPages, freeLists);
      freePageCount := freePageCount - n;
      usedPageCount := usedPageCount + n;
      return Some(first);
    }

    /**
     * AllocatePages(ptr, numPages): takes the pages asked for if all of them are free. The ends are compared modulo 2^64: a
     * count that wraps is let through, and a region that ends at 2^64 is refused unless all of it from `p` on is asked for.
     */
    method AllocateAt(p: nat, n: nat) returns (ok: bool)
      requires Valid() && p < PAGES && n > 0
      modifies this
      ensures ok <==> (AllFree(old(allPages), start, limit, p, n) && !BelowTop(old(allPages), p, n, true)) || Wraps(old(allPages), p, n, true)
      ensures Valid() <==> !Wraps(old(allPages), p, n, true)
      ensures Moved(if ok then n else 0) && (!ok ==> allPages == old(allPages) && freeLists == old(freeLists))
      ensures ok && Valid() ==> Used(allPages) == Used(old(allPages))[p := n]
    {
      hide Sound, AllFree, Used, FreeSet, TakenFrom, Tiled, Coalesced, Wraps, BelowTop;
      SoundTiled(allPages, freeLists, start, limit);
      var found := FindNodeOrLower(allPages.Keys, p);
      WhereFree(allPages, freeLists, start, limit, p, n, found);
      if found.None? {
        NothingLower(allPages, p, n, true);
        return false;
      }
      var k := found.value;
      TestExact(allPages, start, limit, p, n, k, true);
      if !allPages[k].isFree || (k + allPages[k].size) % PAGES < (p + n) % PAGES {
        return false;
      }
      ghost var inside := p < k + allPages[k].size;
      allPages, freeLists := TakeOut(allPages, freeLists, start, limit, k, p, n);
      if inside {
        TakenSound(old(allPages), old(freeLists), start, limit, k, p, Available(old(allPages), k, p, n), allPages, freeLists);
      } else {
        NotSound(allPages, freeLists, start, limit);
      }
      freePageCount := freePageCount - n;
      usedPageCount := usedPageCount + n;
      return true;
    }

    /**
     * FreePages: frees the exact region, or part of a containing one; anything else is left alone. Without `exact` the ends
     * are compared modulo 2^64; the region after one that ends at 2^64 is looked up at address 0.
     */
    method FreePages(p: nat, n: nat, exact: bool) returns (ghost done: bool)
      requires Valid() && p < PAGES && n > 0 && (exact || n < SIZES)
      modifies this
      ensures done <==> FreesPages(old(allPages), p, n, exact) || (!exact && Wraps(old(allPages), p, n, false))
      ensures Valid() <==> !(!exact && Wraps(old(allPages), p, n, false)) && !(FreesPages(old(allPages), p, n, exact) && MergesOverTop(old(allPages), p, n))
      ensures Moved(if done then -(n as int) else 0) && (!done ==> allPages == old(allPages) && freeLists == old(freeLists))
      ensures done && Valid() ==> exists k: nat, prev: nat ::
        && Freeable(Used(old(allPages)), p, n, exact, k) && Used(allPages) == Carve(Used(old(allPages)), k, p, n)
        && FreedFrom(old(allPages), old(freeLists), start, k, p, n, prev, allPages, freeLists)
    {
      hide Sound, Carve, FreeSet, Tiled, Coalesced, Used, Freeable, FreedFrom, Wraps, BelowTop, MergesOverTop;
      SoundTiled(allPages, freeLists, start, limit);
      done := false;
      var k := p;
      if exact {
        ExactFreeable(allPages, p, n);
        if p !in allPages || allPages[p].isFree || allPages[p].size != n {
          return;
        }
        WithinEnd(allPages, start, limit, p);
      } else {
        var found := FindNodeOrLower(allPages.Keys, p);
        PartFreeable(allPages, freeLists, start, limit, p, n, found);
        if found.None? {
          NothingLower(allPages, p, n, false);
          return;
        }
        k := found.value;
        TestExact(allPages, start, limit, p, n, k, false);
        if allPages[k].isFree || (k + allPages[k].size) % PAGES < (p + n) % PAGES {
          return;
        }
        WrapsFar(allPages, p, n, k);
      }
      ghost var rs, fi := allPages, freeLists;
      assert p + n <= k + rs[k].size ==> Freeable(Used(rs), p, n, exact, k);
      done := true;
      ghost var prev;
      allPages, freeLists, prev := Release(allPages, freeLists, start, limit, k, p, n);
      if p + n <= k + rs[k].size && !MergesOverTop(rs, p, n) {
        FreedSound(rs, fi, start, limit, k, p, n, prev, allPages, freeLists);
      }
      freePageCount := freePageCount + n;
      usedPageCount := usedPageCount - n;
    }

    /**
     * ResizeAllocatedRegion: splits an allocated region so that the new range is one of its own. No test keeps the range inside
     * the region: the allocator stays in order exactly if it is, or if both splits run into keys that the tree has already.
     */
    method ResizeAllocatedRegion(p: nat, n: nat, newStart: nat, newCount: nat) returns (ok: bool)
      requires Valid() && newStart < PAGES && newStart + newCount <= PAGES
      modifies this
      ensures Moved(0) && freeLists == old(freeLists)
      ensures ok <==> p in Used(old(allPages)) && Used(old(allPages))[p] == n
      ensures Valid() <==> !ok || Within(p, n, newStart, newCount) || KeysTaken(old(allPages), p, n, newStart, newCount)
      ensures ok && Within(p, n, newStart, newCount) ==>
        var from := if p < newStart then newStart else p; Used(allPages) == Carve(Used(old(allPages)), p, from, newCount)[from := newCount]
      ensures !ok || KeysTaken(old(allPages), p, n, newStart, newCount) ==> allPages == old(allPages)
    {
      hide Sound, FreeSet, Used, Carve, Cut, Resized;
      ExactUsed(allPages, p, n);
      if p !in allPages || allPages[p].isFree || allPages[p].size != n {
        return false;
      }
      ResizeExact(allPages, freeLists, start, limit, p, newStart, newCount);
      allPages := Isolate(allPages, p, newStart, newCount);
      return true;
    }

    /** Fork: an allocator without regions becomes a copy of the other. */
    method Fork(other: VMRegionAllocator)
      requires other != this && other.Valid() && allPages == map[] && freeLists == map[]
      modifies this
      ensures Valid() && allPages == other.allPages && freeLists == other.freeLists
      ensures start == other.start && limit == other.limit && freePageCount == other.freePageCount && usedPageCount == other.usedPageCount
    {
      hide Sound, FreeSet;
      allPages := CopyRegions(other.allPages);
      freeLists := CopyLists(other.freeLists);
      start, limit := other.start, other.limit;
      freePageCount, usedPageCount := other.freePageCount, other.usedPageCount;
      reservedPageCount, totalPageCount := other.reservedPageCount, other.totalPageCount;
    }

    /**
     * Freeing what AllocatePages just returned gives back the partition and the counters; only the list it took from is rotated.
     * The exception is a region that ends at 2^64, if the region at address 0 is free too or the same.
     */
    method AllocateThenFree(n: nat) returns (r: Option<nat>)
      requires Valid() && n > 0
      modifies this
      ensures r.None? <==> forall p :: !AllFree(old(allPages), start, limit, p, n)
      ensures r.Some? ==> BestFit(old(allPages), old(freeLists), r.value, n)
      ensures Valid() <==> r.None? || !MergesOverTop(old(allPages), r.value, n)
      ensures Moved(0) && (Valid() ==> allPages == old(allPages))
      ensures Valid() ==> freeLists == if r.None? then old(freeLists) else RotateList(old(freeLists), old(allPages)[r.value].size)
      ensures Valid() ==> (freeLists == old(freeLists) <==> r.None? || OnlyOfItsSize(old(allPages), r.value))
    {
      hide BestFit, Freeable, Sound, Used, FreeSet, TakenFrom, FreedFrom, RotateList, AllFree, OnlyOfItsSize, Carve, MergesOverTop, BelowTop, Wraps;
      r := AllocatePages(n);
      if r.Some? {
        ghost var rs1, fi1, a := allPages, freeLists, r.value;
        ghost var rs, fi := old(allPages), old(freeLists);
        TakenFreeable(rs, fi, start, limit, a, n, rs1, fi1);
        ghost var done := FreePages(r.value, n, true);
        if Valid() {
          ghost var k: nat, prev: nat :| Freeable(Used(rs1), a, n, true, k) && FreedFrom(rs1, fi1, start, k, a, n, prev, allPages, freeLists);
          ExactIsOne(Used(rs1), a, n, k);
          RoundTrip(rs, fi, start, limit, a, n, rs1, fi1, prev, allPages, freeLists);
          RotationSeen(rs, fi, start, limit, a, n);
        }
      }
    }
  }

  lemma ExactIsOne(used: map<nat, nat>, p: nat, n: nat, k: nat)
    requires Freeable(used, p, n, true, k)
    ensures k == p
  {
  }

  /** What was just allocated can be freed; it merges over the top exactly as the region it came from would. */
  lemma TakenFreeable(rs: Partition, fi: Index, lo: nat, hi: nat, a: nat, n: nat, rs1: Partition, fi1: Index)
    requires Sound(rs, fi, lo, hi) && hi <= PAGES && TakenFrom(rs, fi, a, a, n, rs1, fi1)
    ensures a < PAGES && Freeable(Used(rs1), a, n, true, a)
    ensures MergesOverTop(rs1, a, n) <==> MergesOverTop(rs, a, n)
  {
    WithinEnd(rs, lo, hi, a);
    CutFields(rs, lo, hi, a, a, n);
    hide Tiled, Coalesced, WellListed, Agree, Cut, TakenIndex;
    assert a in Used(rs1) && Used(rs1)[a] == n;
  }

  lemma NothingLower(rs: Partition, p: nat, n: nat, isFree: bool)
    requires forall j :: j in rs ==> j > p
    ensures !Wraps(rs, p, n, isFree)
  {
  }

  lemma NotSound(rs: Partition, fi: Index, lo: nat, hi: nat)
    requires !Tiled(rs, lo, hi)
    ensures !Sound(rs, fi, lo, hi)
  {
    hide Tiled;
  }

  /** An end behind the region that passes the test has wrapped. */
  lemma WrapsFar(rs: Partition, p: nat, n: nat, k: nat)
    requires k in rs && (p + n) % PAGES <= (k + rs[k].size) % PAGES
    ensures p + n <= k + rs[k].size || PAGES <= p + n
  {
    if p + n < PAGES {
      assert (p + n) % PAGES == p + n;
    }
  }

  /** Five pages of which the second and the fourth are allocated. */
  method FiveWithSingles() returns (m: VMRegionAllocator)
    ensures fresh(m) && m.Valid() && m.start == 0 && m.limit == 5 && Used(m.allPages) == map[1 := 1, 3 := 1]
  {
    m := new VMRegionAllocator(0, 5);
    hide Sound, AllFree, Used, FreeSet, Wraps, BelowTop;
    OneFree(m.allPages, m.freeLists, 0, 5, 1);
    var ok := m.AllocateAt(1, 1);
    OneFree(m.allPages, m.freeLists, 0, 5, 3);
    ok := m.AllocateAt(3, 1);
  }

  /** A run after which the free index is another one: three free pages that do not touch, of which one is allocated and freed. */
  method RotationShown() returns (m: VMRegionAllocator, r: Option<nat>, ghost lists: Index)
    ensures fresh(m) && m.Valid() && m.start == 0 && m.limit == 5 && Used(m.allPages) == map[1 := 1, 3 := 1]
    ensures r.Some? && Sound(m.allPages, lists, 0, 5) && m.freeLists == RotateList(lists, 1) && m.freeLists != lists
  {
    hide Sound, AllFree, Used, FreeSet, RotateList, OnlyOfItsSize, BestFit;
    m := FiveWithSingles();
    ghost var rs := m.allPages;
    lists := m.freeLists;
    OneFree(rs, lists, 0, 5, 0);
    r := m.AllocateThenFree(1);
    if r.Some? {
      SinglesOfFive(rs, lists, r.value);
    }
  }

  lemma OneFree(rs: Partition, fi: Index, lo: nat, hi: nat, p: nat)
    requires Sound(rs, fi, lo, hi) && lo <= p < hi && forall k :: k in Used(rs) ==> !(k <= p < k + Used(rs)[k])
    ensures AllFree(rs, lo, hi, p, 1)
    ensures p + 1 <= hi < PAGES ==> !Wraps(rs, p, 1, true) && !BelowTop(rs, p, 1, true) && !MergesOverTop(rs, p, 1)
  {
    var k := Covered(rs, lo, hi, p);
    assert !rs[k].isFree ==> k in Used(rs);
    RegionAllFree(rs, lo, hi, k, p, 1);
    if hi < PAGES {
      BelowAll(rs, lo, hi, p, 1, true);
    }
  }

  /** A free page between used ones is a region. */
  lemma SingleFree(rs: Partition, lo: nat, hi: nat, p: nat)
    requires Tiled(rs, lo, hi) && lo <= p && p + 1 in rs && !rs[p + 1].isFree && PageIn(rs, p, true)
    requires p == lo || (p - 1 in rs && rs[p - 1] == Region(1, false))
    ensures p in rs && rs[p] == Region(1, true)
  {
    var k :| k in rs && k <= p < k + rs[k].size && rs[k].isFree;
    assert p + 1 >= k + rs[k].size;
  }

  lemma SinglesOfFive(rs: Partition, fi: Index, a: nat)
    requires Sound(rs, fi, 0, 5) && Used(rs) == map[1 := 1, 3 := 1] && BestFit(rs, fi, a, 1)
    ensures rs[a].size == 1 && !OnlyOfItsSize(rs, a) && a < 5
  {
    WithinEnd(rs, 0, 5, a);
    assert 1 in Used(rs) && 3 in Used(rs);
    assert rs[1] == Region(1, false) && rs[3] == Region(1, false);
    OneFree(rs, fi, 0, 5, 0);
    OneFree(rs, fi, 0, 5, 2);
    hide Used, WellListed, Agree;
    assert PageIn(rs, 0, true) && PageIn(rs, 2, true);
    SingleFree(rs, 0, 5, 0);
    SingleFree(rs, 0, 5, 2);
    hide Tiled;
  }

  // ---------- Where the tests go wrong ----------

  /** All four pages of [1, 5) asked for with a count that wraps: they are taken, and the counters no longer count. */
  method WrappedAllocation() returns (m: VMRegionAllocator, ok: bool)
    ensures fresh(m) && ok && !m.Valid() && m.start == 1 && m.limit == 5 && m.freePageCount == 4 - (PAGES - 1)
  {
    m := new VMRegionAllocator(1, 5);
    hide Sound, AllFree, Used, FreeSet, BelowTop;
    WholeWraps(m.allPages, m.freeLists, 1, 5, true);
    ok := m.AllocateAt(1, PAGES - 1);
  }

  /** The same for FreePages without `exact`. */
  method WrappedFree() returns (m: VMRegionAllocator)
    ensures fresh(m) && !m.Valid() && m.start == 1 && m.limit == 5
  {
    m := new VMRegionAllocator(1, 5);
    hide Sound, AllFree, Used, FreeSet, BelowTop, Wraps, BestFit, TakenFrom;
    WholeFree(m.allPages, m.freeLists, 1, 5);
    var r := m.AllocatePages(4);
    WholeUsed(m.allPages, m.freeLists, 1, 5, r.value);
    ghost var done := m.FreePages(1, PAGES - 1, false);
  }

  /** All of memory: no page of it can be had by its address, although all are free. */
  method WholeMemoryRefused() returns (m: VMRegionAllocator, ok: bool)
    ensures fresh(m) && m.Valid() && !ok && AllFree(m.allPages, m.start, m.limit, 1, 1)
  {
    m := new VMRegionAllocator(0, 0);
    hide Sound, AllFree, Used, FreeSet, Wraps, BelowTop;
    WholeRefused(m.allPages, m.freeLists);
    ok := m.AllocateAt(1, 1);
  }

  /** All of memory, allocated and freed: the region finds itself as its next one. */
  method WholeMemoryFreed() returns (m: VMRegionAllocator, r: Option<nat>)
    ensures fresh(m) && r == Some(0) && !m.Valid()
  {
    m := new VMRegionAllocator(0, 0);
    hide Sound, AllFree, Used, FreeSet, BestFit, RotateList, OnlyOfItsSize;
    ghost var rs, fi := m.allPages, m.freeLists;
    WholeFree(rs, fi, 0, PAGES);
    r := m.AllocateThenFree(PAGES);
    WholeFit(rs, fi, 0, PAGES, r.value);
  }

  /** Nothing is used: there is one region, and it is free. */
  lemma OneRegion(rs: Partition, fi: Index, lo: nat, hi: nat)
    requires Sound(rs, fi, lo, hi) && lo < hi && Used(rs) == map[]
    ensures rs == map[lo := Region(hi - lo, true)]
  {
    InitialSound(lo, hi);
    hide Tiled, Coalesced, WellListed, Agree, Used, FreeSet;
    Canonical(rs, map[lo := Region(hi - lo, true)], lo, hi);
  }

  lemma WholeFree(rs: Partition, fi: Index, lo: nat, hi: nat)
    requires Sound(rs, fi, lo, hi) && lo < hi && Used(rs) == map[]
    ensures AllFree(rs, lo, hi, lo, hi - lo)
  {
    OneRegion(rs, fi, lo, hi);
    hide Coalesced, WellListed, Agree, Used;
    RegionAllFree(rs, lo, hi, lo, lo, hi - lo);
  }

  lemma WholeWraps(rs: Partition, fi: Index, lo: nat, hi: nat, isFree: bool)
    requires Sound(rs, fi, lo, hi) && lo < hi < PAGES && Used(rs) == map[] && isFree
    ensures Wraps(rs, lo, PAGES - lo, isFree)
  {
    OneRegion(rs, fi, lo, hi);
    hide Sound, Used;
    assert IsLower(rs, lo, lo);
  }

  lemma WholeFit(rs: Partition, fi: Index, lo: nat, hi: nat, a: nat)
    requires Sound(rs, fi, lo, hi) && lo < hi && Used(rs) == map[] && BestFit(rs, fi, a, hi - lo)
    ensures a == lo && lo in rs
  {
    OneRegion(rs, fi, lo, hi);
    hide Sound, Used;
  }

  lemma WholeUsed(rs: Partition, fi: Index, lo: nat, hi: nat, a: nat)
    requires Sound(rs, fi, lo, hi) && lo < hi < PAGES && Used(rs) == map[a := hi - lo]
    ensures Wraps(rs, lo, PAGES - lo, false)
  {
    assert a in Used(rs);
    WithinEnd(rs, lo, hi, a);
    assert a == lo && rs[lo] == Region(hi - lo, false);
    forall j | j in rs && j <= lo ensures j == lo {
      WithinEnd(rs, lo, hi, j);
    }
    hide Sound, Used;
    assert IsLower(rs, lo, lo);
  }

  lemma WholeRefused(rs: Partition, fi: Index)
    requires Sound(rs, fi, 0, PAGES) && Used(rs) == map[]
    ensures AllFree(rs, 0, PAGES, 1, 1) && BelowTop(rs, 1, 1, true) && !Wraps(rs, 1, 1, true)
  {
    OneRegion(rs, fi, 0, PAGES);
    RegionAllFree(rs, 0, PAGES, 0, 1, 1);
    hide Sound, Used, AllFree;
  }
}
