/** kernel/src/Memory/VMRegionAllocator.cpp: a best-fit allocator of virtual pages over two trees. */
module RegionAllocator {
  import opened Basics
  import opened Regions
  import opened RegionIndex

  /** The page counter of a partition after [p, p + n) has changed hands. */
  lemma CountTaken(rs: Partition, rs': Partition, lo: nat, hi: nat, p: nat, n: nat)
    requires lo <= p && p + n <= hi
    requires forall x :: lo <= x < hi ==> (PageIn(rs', x, true) <==> PageIn(rs, x, true) && !(p <= x < p + n))
    requires forall x :: p <= x < p + n ==> PageIn(rs, x, true)
    ensures |FreeSet(rs, lo, hi)| == |FreeSet(rs', lo, hi)| + n
  {
    var f, f', s := FreeSet(rs, lo, hi), FreeSet(rs', lo, hi), Span(p, n);
    assert f == f' + s && f' !! s;
  }

  /** Allocating [p, p + n) out of the free region `k`, in both indexes. */
  lemma Taken(rs: Partition, lo: nat, hi: nat, k: nat, p: nat, n: nat)
    requires Tiled(rs, lo, hi) && Coalesced(rs) && k in rs && rs[k].isFree && k <= p && p + n <= k + rs[k].size && n > 0
    ensures p in Cut(rs, k, p, n)
    ensures var rs' := SetFlag(Cut(rs, k, p, n), p, false);
      && Tiled(rs', lo, hi) && Coalesced(rs') && Used(rs') == Used(rs)[p := n]
      && |FreeSet(rs, lo, hi)| == |FreeSet(rs', lo, hi)| + n
  {
    CutFields(rs, lo, hi, k, p, n);
    var rs' := SetFlag(Cut(rs, k, p, n), p, false);
    assert lo <= k && k + rs[k].size <= hi;
    hide Tiled, Coalesced, Cut, Used, PageIn, SetFlag;
    CutTiled(rs, lo, hi, k, p, n);
    FlagTiled(Cut(rs, k, p, n), lo, hi, p, false);
    CutUsed(rs, lo, hi, k, p, n);
    CutCoalesced(rs, lo, hi, k, p, n);
    forall x | lo <= x < hi ensures PageIn(rs', x, true) <==> PageIn(rs, x, true) && !(p <= x < p + n) {
      CutPages(rs, lo, hi, k, p, n, false, x);
    }
    forall x | p <= x < p + n ensures PageIn(rs, x, true) {
      PageFlag(rs, lo, hi, x, k);
    }
    CountTaken(rs, rs', lo, hi, p, n);
  }

  /** The free lists after it: the region at `k` leaves its list, what is left of it on either side is listed. */
  function TakenIndex(fi: Index, size: nat, k: nat, p: nat, n: nat): Index
    requires k <= p && p + n <= k + size
  {
    var fi1 := Unlist(fi, size, k);
    var fi2 := if k < p then Enlist(fi1, p - k, k) else fi1;
    if p + n < k + size then Enlist(fi2, k + size - (p + n), p + n) else fi2
  }

  lemma TakenListed(fi: Index, size: nat, k: nat, p: nat, n: nat)
    requires WellListed(fi) && k <= p && p + n <= k + size && n > 0
    requires forall s :: Listed(fi, s, k) ==> s == size
    requires p + n < k + size ==> forall s, x :: Listed(fi, s, x) ==> x != p + n
    ensures WellListed(TakenIndex(fi, size, k, p, n))
    ensures forall s, x :: Listed(TakenIndex(fi, size, k, p, n), s, x) <==>
      || (Listed(fi, s, x) && x != k)
      || (k < p && s == p - k && x == k)
      || (p + n < k + size && s == k + size - (p + n) && x == p + n)
  {
    hide WellListed, Unlist, Enlist, Listed;
    UnlistMeaning(fi, size, k);
    var fi1 := Unlist(fi, size, k);
    if k < p {
      EnlistMeaning(fi1, p - k, k);
    }
    var fi2 := if k < p then Enlist(fi1, p - k, k) else fi1;
    if p + n < k + size {
      EnlistMeaning(fi2, k + size - (p + n), p + n);
    }
  }

  /** The free regions after the cut. */
  lemma TakenRegions(rs: Partition, lo: nat, hi: nat, k: nat, p: nat, n: nat, s: nat, x: nat)
    requires Tiled(rs, lo, hi) && k in rs && rs[k].isFree && k <= p && p + n <= k + rs[k].size && n > 0
    ensures p in Cut(rs, k, p, n)
    ensures var rs' := SetFlag(Cut(rs, k, p, n), p, false);
      (x in rs' && rs'[x] == Region(s, true)) <==>
        || (x in rs && rs[x] == Region(s, true) && x != k)
        || (k < p && s == p - k && x == k)
        || (p + n < k + rs[k].size && s == k + rs[k].size - (p + n) && x == p + n)
  {
    CutFields(rs, lo, hi, k, p, n);
    hide Tiled, Cut;
  }

  lemma TakenAgree(rs: Partition, fi: Index, lo: nat, hi: nat, k: nat, p: nat, n: nat)
    requires Tiled(rs, lo, hi) && WellListed(fi) && Agree(rs, fi)
    requires k in rs && rs[k].isFree && k <= p && p + n <= k + rs[k].size && n > 0
    ensures p in Cut(rs, k, p, n)
    ensures WellListed(TakenIndex(fi, rs[k].size, k, p, n))
    ensures Agree(SetFlag(Cut(rs, k, p, n), p, false), TakenIndex(fi, rs[k].size, k, p, n))
  {
    assert p + n < k + rs[k].size ==> p + n !in rs;
    TakenRegions(rs, lo, hi, k, p, n, 0, 0);
    hide Tiled, Cut, SetFlag, WellListed, Listed, TakenIndex;
    TakenListed(fi, rs[k].size, k, p, n);
    forall s, x ensures Listed(TakenIndex(fi, rs[k].size, k, p, n), s, x)
      <==> var rs' := SetFlag(Cut(rs, k, p, n), p, false); x in rs' && rs'[x] == Region(s, true)
    {
      TakenRegions(rs, lo, hi, k, p, n, s, x);
      assert Listed(fi, s, x) <==> x in rs && rs[x] == Region(s, true);
    }
  }

  // ---------- Freeing ----------

  /** The partition with [p, p + n), cut out of the used region `k`, marked free. */
  function Marked(rs: Partition, k: nat, p: nat, n: nat): Partition
    requires k in rs && k <= p && p + n <= k + rs[k].size && p in Cut(rs, k, p, n)
  {
    SetFlag(Cut(rs, k, p, n), p, true)
  }

  /** The region that ends where `p` begins; `p` itself at the start of the range. */
  ghost predicate IsPrevious(rs: Partition, lo: nat, p: nat, prev: nat) {
    prev in rs && (prev + rs[prev].size == p || (p == lo && prev == p))
  }

  predicate Merges(rs: Partition, prev: nat, p: nat)
    requires prev in rs
  {
    prev + rs[prev].size == p && rs[prev].isFree
  }

  lemma MarkedPairs(rs: Partition, lo: nat, hi: nat, k: nat, p: nat, n: nat, j: nat)
    requires Tiled(rs, lo, hi) && Coalesced(rs) && k in rs && !rs[k].isFree && k <= p && p + n <= k + rs[k].size && n > 0
    requires p in Cut(rs, k, p, n) && FreePair(Marked(rs, k, p, n), j)
    ensures j == p || j + Marked(rs, k, p, n)[j].size == p
  {
    CutFields(rs, lo, hi, k, p, n);
    hide Tiled, Cut;
  }

  lemma MarkedSound(rs: Partition, lo: nat, hi: nat, k: nat, p: nat, n: nat)
    requires Tiled(rs, lo, hi) && Coalesced(rs) && k in rs && !rs[k].isFree && k <= p && p + n <= k + rs[k].size && n > 0
    ensures p in Cut(rs, k, p, n)
    ensures var rs1 := Marked(rs, k, p, n);
      && Tiled(rs1, lo, hi) && p in rs1 && rs1[p] == Region(n, true)
      && Used(rs1) == Used(Cut(rs, k, p, n)) - {p}
  {
    CutFields(rs, lo, hi, k, p, n);
    CutTiled(rs, lo, hi, k, p, n);
    hide Tiled, Cut, Coalesced, Used;
    FlagTiled(Cut(rs, k, p, n), lo, hi, p, true);
    FlagUsed(Cut(rs, k, p, n), p);
  }

  lemma FlagUsed(rs: Partition, p: nat)
    requires p in rs
    ensures Used(SetFlag(rs, p, true)) == Used(rs) - {p}
  {
  }

  /** The partition after the merges of FreePages. */
  function Released(rs1: Partition, p: nat, prev: nat): Partition
    requires p in rs1 && prev in rs1
  {
    var rs2 := MergePrev(rs1, p, prev);
    var c := if Merges(rs1, prev, p) then prev else p;
    if c in rs2 then MergeNext(rs2, c) else rs2
  }

  lemma JoinKeeps(rs: Partition, lo: nat, hi: nat, c: nat)
    requires Tiled(rs, lo, hi) && FreePair(rs, c)
    ensures Tiled(Joined(rs, c), lo, hi) && Used(Joined(rs, c)) == Used(rs) && FreeSet(Joined(rs, c), lo, hi) == FreeSet(rs, lo, hi)
  {
    hide Tiled, Used, PageIn, Joined;
    JoinTiled(rs, lo, hi, c);
    JoinUsed(rs, lo, hi, c);
    forall x | lo <= x < hi ensures PageIn(Joined(rs, c), x, true) <==> PageIn(rs, x, true) {
      JoinPages(rs, lo, hi, c, x);
    }
  }

  lemma ReleasedSound(rs1: Partition, lo: nat, hi: nat, p: nat, prev: nat)
    requires Tiled(rs1, lo, hi) && p in rs1 && rs1[p].isFree && IsPrevious(rs1, lo, p, prev)
    requires forall j: nat :: FreePair(rs1, j) ==> j == p || j + rs1[j].size == p
    ensures var rs' := Released(rs1, p, prev);
      && Tiled(rs', lo, hi) && Coalesced(rs') && Used(rs') == Used(rs1)
      && FreeSet(rs', lo, hi) == FreeSet(rs1, lo, hi)
  {
    var rs2, c := MergePrev(rs1, p, prev), if Merges(rs1, prev, p) then prev else p;
    assert 0 < rs1[p].size;
    assert c in rs2;
    hide Tiled, Coalesced, Used, FreeSet, Joined;
    if Merges(rs1, prev, p) {
      JoinKeeps(rs1, lo, hi, prev);
    }
    forall j: nat | FreePair(rs2, j) ensures j == c {
      MergePrevPairs(rs1, lo, hi, p, prev, j);
    }
    MergeNextCoalesced(rs2, lo, hi, c);
    if FreePair(rs2, c) {
      JoinKeeps(rs2, lo, hi, c);
    }
  }

  /** Freeing [p, p + n) out of the used region `k`. */
  lemma Freed(rs: Partition, lo: nat, hi: nat, k: nat, p: nat, n: nat, prev: nat)
    requires Tiled(rs, lo, hi) && Coalesced(rs) && k in rs && !rs[k].isFree && k <= p && p + n <= k + rs[k].size && n > 0
    requires p in Cut(rs, k, p, n) && IsPrevious(Marked(rs, k, p, n), lo, p, prev)
    ensures var rs' := Released(Marked(rs, k, p, n), p, prev);
      && Tiled(rs', lo, hi) && Coalesced(rs') && Used(rs') == Used(Cut(rs, k, p, n)) - {p}
      && |FreeSet(rs', lo, hi)| == |FreeSet(rs, lo, hi)| + n
  {
    var rs1 := Marked(rs, k, p, n);
    assert lo <= k && k + rs[k].size <= hi;
    hide Tiled, Coalesced, Used, PageIn, Cut, Released, IsPrevious;
    MarkedSound(rs, lo, hi, k, p, n);
    forall j: nat | FreePair(rs1, j) ensures j == p || j + rs1[j].size == p {
      MarkedPairs(rs, lo, hi, k, p, n, j);
    }
    ReleasedSound(rs1, lo, hi, p, prev);
    forall x | lo <= x < hi ensures PageIn(rs1, x, true) <==> PageIn(rs, x, true) || p <= x < p + n {
      CutPages(rs, lo, hi, k, p, n, true, x);
    }
    forall x | p <= x < p + n ensures !PageIn(rs, x, true) {
      PageFlag(rs, lo, hi, x, k);
    }
    CountTaken(rs1, rs, lo, hi, p, n);
  }

  lemma MarkedRegions(rs: Partition, lo: nat, hi: nat, k: nat, p: nat, n: nat, s: nat, x: nat)
    requires Tiled(rs, lo, hi) && k in rs && !rs[k].isFree && k <= p && p + n <= k + rs[k].size && n > 0
    ensures p in Cut(rs, k, p, n)
    ensures var rs1 := Marked(rs, k, p, n);
      (x in rs1 && rs1[x] == Region(s, true)) <==> (x in rs && rs[x] == Region(s, true)) || (x == p && s == n)
  {
    CutFields(rs, lo, hi, k, p, n);
    hide Tiled, Cut;
  }

  lemma JoinedRegions(rs: Partition, lo: nat, hi: nat, c: nat, s: nat, x: nat)
    requires Tiled(rs, lo, hi) && FreePair(rs, c)
    ensures var q := c + rs[c].size;
      (x in Joined(rs, c) && Joined(rs, c)[x] == Region(s, true)) <==>
        (x in rs && rs[x] == Region(s, true) && x != c && x != q) || (x == c && s == rs[c].size + rs[q].size)
  {
    assert 0 < rs[c].size;
    hide Tiled;
  }

  /** The free regions that FreePages takes off their lists, and the one it lists. */
  datatype Merge = Merge(prev: Option<(nat, nat)>, next: Option<(nat, nat)>, start: nat, size: nat)

  /** Which neighbours of the free region `p` merge with it. */
  function MergeOf(rs1: Partition, p: nat, prev: nat): Merge
    requires p in rs1 && prev in rs1
  {
    var q := p + rs1[p].size;
    var before := if Merges(rs1, prev, p) then Some((prev, rs1[prev].size)) else None;
    var after := if q in rs1 && rs1[q].isFree then Some((q, rs1[q].size)) else None;
    Merge(before, after, if before.Some? then prev else p,
          rs1[p].size + (if before.Some? then before.value.1 else 0) + (if after.Some? then after.value.1 else 0))
  }

  /** The region the merge with the previous one leaves, and its neighbour. */
  lemma PrevMerged(rs1: Partition, lo: nat, hi: nat, p: nat, prev: nat)
    requires Tiled(rs1, lo, hi) && p in rs1 && rs1[p].isFree && IsPrevious(rs1, lo, p, prev)
    ensures var rs2, c, q := MergePrev(rs1, p, prev), if Merges(rs1, prev, p) then prev else p, p + rs1[p].size;
      && Tiled(rs2, lo, hi) && c in rs2 && rs2[c].isFree && c + rs2[c].size == q && (q in rs2 <==> q in rs1)
      && (q in rs1 ==> rs2[q] == rs1[q]) && q != p && q != prev && (Merges(rs1, prev, p) ==> prev != p)
  {
    hide Tiled;
    Positive(rs1, lo, hi, p);
    Positive(rs1, lo, hi, prev);
    if Merges(rs1, prev, p) {
      JoinTiled(rs1, lo, hi, prev);
    }
  }

  lemma ReleasedRegions(rs1: Partition, lo: nat, hi: nat, p: nat, prev: nat, s: nat, x: nat)
    requires Tiled(rs1, lo, hi) && p in rs1 && rs1[p].isFree && IsPrevious(rs1, lo, p, prev)
    ensures var rs', g := Released(rs1, p, prev), MergeOf(rs1, p, prev);
      (x in rs' && rs'[x] == Region(s, true)) <==>
        || (x in rs1 && rs1[x] == Region(s, true) && x != p && !(g.prev.Some? && x == g.prev.value.0) && !(g.next.Some? && x == g.next.value.0))
        || (x == g.start && s == g.size)
  {
    hide Tiled;
    PrevMerged(rs1, lo, hi, p, prev);
    var rs2, c := MergePrev(rs1, p, prev), if Merges(rs1, prev, p) then prev else p;
    if Merges(rs1, prev, p) {
      JoinedRegions(rs1, lo, hi, prev, s, x);
    }
    hide Joined;
    if FreePair(rs2, c) {
      JoinedRegions(rs2, lo, hi, c, s, x);
    }
  }

  /** Steps 4 and 5 of FreePages. */
  function FreedIndex(fi: Index, g: Merge): Index {
    var fi1 := if g.prev.Some? then Unlist(fi, g.prev.value.1, g.prev.value.0) else fi;
    var fi2 := if g.next.Some? then Unlist(fi1, g.next.value.1, g.next.value.0) else fi1;
    Enlist(fi2, g.size, g.start)
  }

  lemma FreedListed(fi: Index, g: Merge)
    requires WellListed(fi)
    requires forall s, x :: Listed(fi, s, x) && g.prev.Some? && x == g.prev.value.0 ==> s == g.prev.value.1
    requires forall s, x :: Listed(fi, s, x) && g.next.Some? && x == g.next.value.0 ==> s == g.next.value.1
    requires forall s, x :: Listed(fi, s, x) && x == g.start ==> g.prev.Some? && x == g.prev.value.0
    ensures WellListed(FreedIndex(fi, g))
    ensures forall s, x :: Listed(FreedIndex(fi, g), s, x) <==>
      || (Listed(fi, s, x) && !(g.prev.Some? && x == g.prev.value.0) && !(g.next.Some? && x == g.next.value.0))
      || (s == g.size && x == g.start)
  {
    hide WellListed, Listed, Unlist, Enlist;
    if g.prev.Some? {
      UnlistMeaning(fi, g.prev.value.1, g.prev.value.0);
    }
    var fi1 := if g.prev.Some? then Unlist(fi, g.prev.value.1, g.prev.value.0) else fi;
    if g.next.Some? {
      UnlistMeaning(fi1, g.next.value.1, g.next.value.0);
    }
    var fi2 := if g.next.Some? then Unlist(fi1, g.next.value.1, g.next.value.0) else fi1;
    EnlistMeaning(fi2, g.size, g.start);
  }

  lemma FreedAgree(rs: Partition, fi: Index, lo: nat, hi: nat, k: nat, p: nat, n: nat, prev: nat)
    requires Tiled(rs, lo, hi) && WellListed(fi) && Agree(rs, fi)
    requires k in rs && !rs[k].isFree && k <= p && p + n <= k + rs[k].size && n > 0
    requires p in Cut(rs, k, p, n) && IsPrevious(Marked(rs, k, p, n), lo, p, prev)
    ensures var rs1 := Marked(rs, k, p, n);
      && WellListed(FreedIndex(fi, MergeOf(rs1, p, prev)))
      && Agree(Released(rs1, p, prev), FreedIndex(fi, MergeOf(rs1, p, prev)))
  {
    var rs1 := Marked(rs, k, p, n);
    var g := MergeOf(rs1, p, prev);
    MarkedMerge(rs, lo, hi, k, p, n, prev);
    hide Tiled, Cut, WellListed, Listed, FreedIndex, Released, MergeOf, IsPrevious;
    assert forall s, x :: Listed(fi, s, x) ==> x in rs && rs[x] == Region(s, true);
    FreedListed(fi, g);
    forall s, x ensures Listed(FreedIndex(fi, g), s, x) <==> x in Released(rs1, p, prev) && Released(rs1, p, prev)[x] == Region(s, true) {
      assert Listed(fi, s, x) <==> x in rs && rs[x] == Region(s, true);
      MarkedRegions(rs, lo, hi, k, p, n, s, x);
      ReleasedRegions(rs1, lo, hi, p, prev, s, x);
    }
  }

  lemma MarkedMerge(rs: Partition, lo: nat, hi: nat, k: nat, p: nat, n: nat, prev: nat)
    requires Tiled(rs, lo, hi) && k in rs && !rs[k].isFree && k <= p && p + n <= k + rs[k].size && n > 0
    requires p in Cut(rs, k, p, n) && IsPrevious(Marked(rs, k, p, n), lo, p, prev)
    ensures var rs1 := Marked(rs, k, p, n);
      var g := MergeOf(rs1, p, prev);
      && Tiled(rs1, lo, hi) && rs1[p].isFree && (p in rs ==> !rs[p].isFree)
      && (g.prev.Some? ==> g.start == g.prev.value.0 && g.start in rs && rs[g.start] == Region(g.prev.value.1, true) && g.start != p)
      && (g.prev.None? ==> g.start == p)
      && (g.next.Some? ==> g.next.value.0 in rs && rs[g.next.value.0] == Region(g.next.value.1, true) && g.next.value.0 != p)
  {
    hide Tiled, Cut;
    CutTiled(rs, lo, hi, k, p, n);
    FlagTiled(Cut(rs, k, p, n), lo, hi, p, true);
    CutFields(rs, lo, hi, k, p, n);
    var rs1 := Marked(rs, k, p, n);
    hide Marked;
    Positive(rs1, lo, hi, prev);
    MarkedRegions(rs, lo, hi, k, p, n, rs1[prev].size, prev);
    var q := p + rs1[p].size;
    if q in rs1 {
      MarkedRegions(rs, lo, hi, k, p, n, rs1[q].size, q);
    }
  }

  lemma Positive(rs: Partition, lo: nat, hi: nat, k: nat)
    requires Tiled(rs, lo, hi) && k in rs
    ensures 0 < rs[k].size
  {
  }
}
