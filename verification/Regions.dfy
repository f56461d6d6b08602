/** The partition that VMRegionAllocator keeps: regions by their start, in page numbers. */
module Regions {

  datatype Region = Region(size: nat, isFree: bool)

  type Partition = map<nat, Region>

  /** The page after a region. */
  function End(rs: Partition, k: nat): nat
    requires k in rs
  {
    k + rs[k].size
  }

  /** The regions cover [lo, hi) without gap or overlap. */
  ghost predicate Tiled(rs: Partition, lo: nat, hi: nat) {
    && lo <= hi && (lo < hi ==> lo in rs)
    && (forall k :: k in rs ==> lo <= k && 0 < rs[k].size && k + rs[k].size <= hi)
    && (forall k {:trigger End(rs, k)} :: k in rs && End(rs, k) < hi ==> End(rs, k) in rs)
    && (forall j, k :: j in rs && k in rs && j < k ==> j + rs[j].size <= k)
  }

  /** No free region is followed by a free region. */
  ghost predicate Coalesced(rs: Partition) {
    forall k :: k in rs && rs[k].isFree && k + rs[k].size in rs ==> !rs[k + rs[k].size].isFree
  }

  /** The page lies in a region with this flag. */
  ghost predicate PageIn(rs: Partition, p: nat, isFree: bool) {
    exists k :: k in rs && k <= p < k + rs[k].size && rs[k].isFree == isFree
  }

  ghost function FreeSet(rs: Partition, lo: nat, hi: nat): set<nat> {
    set p | lo <= p < hi && PageIn(rs, p, true)
  }

  /** The pages [p, p + n). */
  ghost function Span(p: nat, n: nat): (s: set<nat>)
    ensures |s| == n && forall x :: x in s <==> p <= x < p + n
  {
    if n == 0 then {} else Span(p, n - 1) + {p + n - 1}
  }

  /** The allocated regions. */
  ghost function Used(rs: Partition): map<nat, nat> {
    map k | k in rs && !rs[k].isFree :: rs[k].size
  }

  /** Every page lies in a region. */
  lemma {:induction false} Covered(rs: Partition, lo: nat, hi: nat, p: nat) returns (k: nat)
    requires Tiled(rs, lo, hi) && lo <= p < hi
    ensures k in rs && k <= p < k + rs[k].size
    decreases p
  {
    if p in rs {
      k := p;
    } else {
      k := Covered(rs, lo, hi, p - 1);
      assert End(rs, k) < hi ==> End(rs, k) in rs;
    }
  }

  lemma SameRegion(rs: Partition, lo: nat, hi: nat, p: nat, j: nat, k: nat)
    requires Tiled(rs, lo, hi) && j in rs && k in rs && j <= p < j + rs[j].size && k <= p < k + rs[k].size
    ensures j == k
  {
  }

  /** A page is free or used, never both. */
  lemma PageFlag(rs: Partition, lo: nat, hi: nat, p: nat, k: nat)
    requires Tiled(rs, lo, hi) && k in rs && k <= p < k + rs[k].size
    ensures PageIn(rs, p, rs[k].isFree) && !PageIn(rs, p, !rs[k].isFree)
  {
    forall j | j in rs && j <= p < j + rs[j].size ensures j == k {
      SameRegion(rs, lo, hi, p, j, k);
    }
  }

  // ---------- What the allocated regions determine ----------

  /** Contiguous free pages lie in one free region. */
  lemma {:induction false} RunInRegion(rs: Partition, lo: nat, hi: nat, p: nat, n: nat, k: nat)
    requires Tiled(rs, lo, hi) && Coalesced(rs) && k in rs && rs[k].isFree && k <= p < k + rs[k].size && n > 0
    requires forall x :: p <= x < p + n ==> PageIn(rs, x, true)
    requires p + n <= hi
    ensures p + n <= k + rs[k].size
    decreases n
  {
    if n > 1 {
      RunInRegion(rs, lo, hi, p, n - 1, k);
      var x := p + n - 1;
      if x == End(rs, k) {
        PageFlag(rs, lo, hi, x, x);
      }
    }
  }

  /** A page is used exactly if an allocated region contains it. */
  lemma UsedPage(rs: Partition, lo: nat, hi: nat, p: nat)
    requires Tiled(rs, lo, hi) && lo <= p < hi
    ensures PageIn(rs, p, true) <==> !exists k :: k in Used(rs) && k <= p < k + Used(rs)[k]
  {
    var k := Covered(rs, lo, hi, p);
    PageFlag(rs, lo, hi, p, k);
    if !rs[k].isFree {
      assert k in Used(rs) && k <= p < k + Used(rs)[k];
    }
  }

  /** A free region of one partition is one of the other if the allocated regions are the same. */
  lemma FreeRegionDetermined(rs: Partition, rs': Partition, lo: nat, hi: nat, k: nat)
    requires Tiled(rs, lo, hi) && Coalesced(rs) && Tiled(rs', lo, hi) && Coalesced(rs') && Used(rs) == Used(rs')
    requires k in rs && rs[k].isFree
    ensures k in rs' && rs'[k].isFree && rs[k].size <= rs'[k].size
  {
    forall p | lo <= p < hi ensures PageIn(rs, p, true) <==> PageIn(rs', p, true) {
      UsedPage(rs, lo, hi, p);
      UsedPage(rs', lo, hi, p);
    }
    PageFlag(rs, lo, hi, k, k);
    var j := Covered(rs', lo, hi, k);
    PageFlag(rs', lo, hi, k, j);
    if j < k {
      PageFlag(rs', lo, hi, k - 1, j);
      var i := Covered(rs, lo, hi, k - 1);
      PageFlag(rs, lo, hi, k - 1, i);
    }
    assert j == k;
    forall x | k <= x < k + rs[k].size ensures PageIn(rs', x, true) {
      PageFlag(rs, lo, hi, x, k);
    }
    RunInRegion(rs', lo, hi, k, rs[k].size, k);
  }

  /** The allocated regions determine the whole partition: between them lie the maximal free runs. */
  lemma Canonical(rs: Partition, rs': Partition, lo: nat, hi: nat)
    requires Tiled(rs, lo, hi) && Coalesced(rs) && Tiled(rs', lo, hi) && Coalesced(rs') && Used(rs) == Used(rs')
    ensures rs == rs'
  {
    forall k | k in rs ensures k in rs' && rs'[k] == rs[k] {
      CanonicalAt(rs, rs', lo, hi, k);
    }
    forall k | k in rs' ensures k in rs {
      CanonicalAt(rs', rs, lo, hi, k);
    }
  }

  lemma CanonicalAt(rs: Partition, rs': Partition, lo: nat, hi: nat, k: nat)
    requires Tiled(rs, lo, hi) && Coalesced(rs) && Tiled(rs', lo, hi) && Coalesced(rs') && Used(rs) == Used(rs') && k in rs
    ensures k in rs' && rs'[k] == rs[k]
  {
    if rs[k].isFree {
      FreeRegionDetermined(rs, rs', lo, hi, k);
      FreeRegionDetermined(rs', rs, lo, hi, k);
    } else {
      assert k in Used(rs') && Used(rs)[k] == Used(rs')[k];
    }
  }

  lemma WithinEnd(rs: Partition, lo: nat, hi: nat, k: nat)
    requires Tiled(rs, lo, hi) && k in rs
    ensures lo <= k && k + rs[k].size <= hi
  {
  }

  // ---------- Cutting a piece out of a region ----------

  /** SplitAPTNode: the region at `k` keeps `n` pages, the rest becomes a region with the same flag. */
  function Split(rs: Partition, k: nat, n: nat): Partition
    requires k in rs && n <= rs[k].size
  {
    rs[k := Region(n, rs[k].isFree)][k + n := Region(rs[k].size - n, rs[k].isFree)]
  }

  lemma SplitOrdered(rs: Partition, lo: nat, hi: nat, k: nat, n: nat, i: nat, j: nat)
    requires Tiled(rs, lo, hi) && k in rs && 0 < n < rs[k].size
    requires i in Split(rs, k, n) && j in Split(rs, k, n) && i < j
    ensures i + Split(rs, k, n)[i].size <= j
  {
    assert i in rs && i != k && k < i ==> k + rs[k].size <= i;
    assert j in rs && j != k && k < j ==> k + rs[k].size <= j;
    if i in rs && i < k {
      assert i + rs[i].size <= k;
    }
  }

  lemma SplitTiled(rs: Partition, lo: nat, hi: nat, k: nat, n: nat)
    requires Tiled(rs, lo, hi) && k in rs && 0 < n < rs[k].size
    ensures Tiled(Split(rs, k, n), lo, hi) && k + n !in rs
  {
    var rs' := Split(rs, k, n);
    forall i, j | i in rs' && j in rs' && i < j ensures i + rs'[i].size <= j {
      SplitOrdered(rs, lo, hi, k, n, i, j);
    }
    assert k + n !in rs;
    forall j | j in rs' && End(rs', j) < hi ensures End(rs', j) in rs' {
      assert End(rs, if j == k + n then k else j) >= End(rs', j);
    }
  }

  /** The region at `k` is cut so that [p, p + n) becomes a region of its own. */
  function Cut(rs: Partition, k: nat, p: nat, n: nat): Partition
    requires k in rs && k <= p && p + n <= k + rs[k].size
  {
    var rs1 := if k < p then Split(rs, k, p - k) else rs;
    if n < rs1[p].size then Split(rs1, p, n) else rs1
  }

  function SetFlag(rs: Partition, k: nat, isFree: bool): Partition
    requires k in rs
  {
    rs[k := rs[k].(isFree := isFree)]
  }

  lemma FlagTiled(rs: Partition, lo: nat, hi: nat, k: nat, isFree: bool)
    requires Tiled(rs, lo, hi) && k in rs
    ensures Tiled(SetFlag(rs, k, isFree), lo, hi)
  {
    var rs' := SetFlag(rs, k, isFree);
    forall j | j in rs' && End(rs', j) < hi ensures End(rs', j) in rs' {
      assert End(rs', j) == End(rs, j);
    }
  }

  lemma CutTiled(rs: Partition, lo: nat, hi: nat, k: nat, p: nat, n: nat)
    requires Tiled(rs, lo, hi) && k in rs && k <= p && p + n <= k + rs[k].size && n > 0
    ensures Tiled(Cut(rs, k, p, n), lo, hi)
  {
    hide Tiled;
    var rs1 := if k < p then Split(rs, k, p - k) else rs;
    if k < p {
      SplitTiled(rs, lo, hi, k, p - k);
    }
    if n < rs1[p].size {
      SplitTiled(rs1, lo, hi, p, n);
    }
  }

  /** No region begins within another. */
  lemma Inside(rs: Partition, lo: nat, hi: nat, k: nat, x: nat)
    requires Tiled(rs, lo, hi) && k in rs
    ensures k < x < k + rs[k].size ==> x !in rs
  {
  }

  /** The up to three regions a cut leaves. */
  lemma CutFields(rs: Partition, lo: nat, hi: nat, k: nat, p: nat, n: nat)
    requires Tiled(rs, lo, hi) && k in rs && k <= p && p + n <= k + rs[k].size && n > 0
    ensures var rs', r := Cut(rs, k, p, n), rs[k];
      && p in rs' && rs'[p] == Region(n, r.isFree) && (p != k ==> p !in rs)
      && (forall j :: j in rs && j != k ==> j in rs' && rs'[j] == rs[j] && j != p)
      && (forall j :: j in rs' ==> j in rs || j == p || (j == p + n && p + n < k + r.size))
      && (k < p ==> k in rs' && rs'[k] == Region(p - k, r.isFree))
      && (p + n < k + r.size ==> p + n in rs' && rs'[p + n] == Region(k + r.size - (p + n), r.isFree) && p + n !in rs)
  {
    hide Tiled;
    Inside(rs, lo, hi, k, p);
    Inside(rs, lo, hi, k, p + n);
  }

  /** The region a page is in after the cut. */
  lemma CutWhere(rs: Partition, lo: nat, hi: nat, k: nat, p: nat, n: nat, isFree: bool, x: nat, j: nat) returns (j': nat)
    requires Tiled(rs, lo, hi) && k in rs && k <= p && p + n <= k + rs[k].size && n > 0 && j in rs && j <= x < j + rs[j].size
    ensures p in Cut(rs, k, p, n)
    ensures var rs' := SetFlag(Cut(rs, k, p, n), p, isFree);
      j' in rs' && j' <= x < j' + rs'[j'].size && rs'[j'].isFree == if p <= x < p + n then isFree else rs[j].isFree
  {
    CutFields(rs, lo, hi, k, p, n);
    if p <= x < p + n {
      SameRegion(rs, lo, hi, x, j, k);
    }
    hide Tiled, Cut;
    j' := if p <= x < p + n then p else if j != k then j else if x < p then k else p + n;
  }

  /** Cutting moves no page; setting the flag of the piece moves its pages. */
  lemma CutPages(rs: Partition, lo: nat, hi: nat, k: nat, p: nat, n: nat, isFree: bool, x: nat)
    requires Tiled(rs, lo, hi) && k in rs && k <= p && p + n <= k + rs[k].size && n > 0 && lo <= x < hi
    ensures p in Cut(rs, k, p, n)
    ensures PageIn(SetFlag(Cut(rs, k, p, n), p, isFree), x, true) <==> if p <= x < p + n then isFree else PageIn(rs, x, true)
  {
    hide Tiled, Cut, PageIn;
    var j := Covered(rs, lo, hi, x);
    var j' := CutWhere(rs, lo, hi, k, p, n, isFree, x, j);
    CutTiled(rs, lo, hi, k, p, n);
    hide SetFlag;
    FlagTiled(Cut(rs, k, p, n), lo, hi, p, isFree);
    PageFlag(rs, lo, hi, x, j);
    PageFlag(SetFlag(Cut(rs, k, p, n), p, isFree), lo, hi, x, j');
  }

  lemma CutUsed(rs: Partition, lo: nat, hi: nat, k: nat, p: nat, n: nat)
    requires Tiled(rs, lo, hi) && k in rs && rs[k].isFree && k <= p && p + n <= k + rs[k].size && n > 0
    ensures p in Cut(rs, k, p, n) && Used(SetFlag(Cut(rs, k, p, n), p, false)) == Used(rs)[p := n]
  {
    CutFields(rs, lo, hi, k, p, n);
    hide Tiled, Cut;
  }

  /** Allocating from a free region keeps the free regions apart. */
  lemma CutCoalesced(rs: Partition, lo: nat, hi: nat, k: nat, p: nat, n: nat)
    requires Tiled(rs, lo, hi) && Coalesced(rs) && k in rs && rs[k].isFree && k <= p && p + n <= k + rs[k].size && n > 0
    ensures p in Cut(rs, k, p, n) && Coalesced(SetFlag(Cut(rs, k, p, n), p, false))
  {
    CutFields(rs, lo, hi, k, p, n);
    hide Cut;
  }

  // ---------- Merging free neighbours ----------

  /** Two neighbouring regions become one. */
  function Joined(rs: Partition, k: nat): Partition
    requires k in rs && k + rs[k].size in rs
  {
    (rs - {k + rs[k].size})[k := Region(rs[k].size + rs[k + rs[k].size].size, rs[k].isFree)]
  }

  lemma JoinTiled(rs: Partition, lo: nat, hi: nat, k: nat)
    requires Tiled(rs, lo, hi) && k in rs && k + rs[k].size in rs
    ensures Tiled(Joined(rs, k), lo, hi)
  {
    var q := k + rs[k].size;
    var rs' := Joined(rs, k);
    forall j | j in rs' && End(rs', j) < hi ensures End(rs', j) in rs' {
      if j != k {
        EndsUnique(rs, lo, hi, j, k);
        assert End(rs, j) == End(rs', j);
      } else {
        assert End(rs, q) == End(rs', j);
      }
    }
    forall i, j | i in rs' && j in rs' && i < j ensures i + rs'[i].size <= j {
      if i == k {
        assert q < j;
      }
    }
  }

  /** Two regions do not end at the same page. */
  lemma EndsUnique(rs: Partition, lo: nat, hi: nat, j: nat, k: nat)
    requires Tiled(rs, lo, hi) && j in rs && k in rs
    ensures j + rs[j].size == k + rs[k].size ==> j == k
  {
  }

  lemma JoinPages(rs: Partition, lo: nat, hi: nat, k: nat, x: nat)
    requires Tiled(rs, lo, hi) && k in rs && k + rs[k].size in rs && rs[k + rs[k].size].isFree == rs[k].isFree && lo <= x < hi
    ensures PageIn(Joined(rs, k), x, true) <==> PageIn(rs, x, true)
  {
    JoinTiled(rs, lo, hi, k);
    var q := k + rs[k].size;
    var j := Covered(rs, lo, hi, x);
    PageFlag(rs, lo, hi, x, j);
    assert q != k;
    var rs' := Joined(rs, k);
    var j' := if j == q then k else j;
    assert j' in rs' && j' <= x < j' + rs'[j'].size && rs'[j'].isFree == rs[j].isFree;
    hide Tiled, PageIn;
    PageFlag(rs', lo, hi, x, j');
  }

  lemma JoinUsed(rs: Partition, lo: nat, hi: nat, k: nat)
    requires Tiled(rs, lo, hi) && k in rs && k + rs[k].size in rs && rs[k].isFree && rs[k + rs[k].size].isFree
    ensures Used(Joined(rs, k)) == Used(rs)
  {
  }

  /** A free region followed by a free region. */
  predicate FreePair(rs: Partition, k: nat) {
    k in rs && rs[k].isFree && k + rs[k].size in rs && rs[k + rs[k].size].isFree
  }

  lemma NoPairs(rs: Partition)
    ensures Coalesced(rs) <==> forall k: nat :: !FreePair(rs, k)
  {
    if Coalesced(rs) {
      forall k: nat ensures !FreePair(rs, k) {}
    }
    if forall k: nat :: !FreePair(rs, k) {
      forall k | k in rs && rs[k].isFree && k + rs[k].size in rs ensures !rs[k + rs[k].size].isFree {
        assert !FreePair(rs, k);
      }
    }
  }

  /** Joining at `c` makes no new pairs, and at most shifts the one at the other end to `c`. */
  lemma JoinPairs(rs: Partition, lo: nat, hi: nat, c: nat, k: nat)
    requires Tiled(rs, lo, hi) && FreePair(rs, c) && FreePair(Joined(rs, c), k)
    ensures FreePair(rs, if k == c then c + rs[c].size else k)
    ensures k != c ==> k != c + rs[c].size
  {
    var rs', q := Joined(rs, c), c + rs[c].size;
    assert q != c && q in rs;
  }

  /** The merge of FreePages with the previous region, then with the next. */
  function MergePrev(rs: Partition, p: nat, prev: nat): Partition
    requires p in rs && prev in rs
  {
    if prev + rs[prev].size == p && rs[prev].isFree then Joined(rs, prev) else rs
  }

  function MergeNext(rs: Partition, c: nat): Partition
    requires c in rs
  {
    if FreePair(rs, c) then Joined(rs, c) else rs
  }

  lemma MergePrevPairs(rs: Partition, lo: nat, hi: nat, p: nat, prev: nat, k: nat)
    requires Tiled(rs, lo, hi) && p in rs && rs[p].isFree && prev in rs && (prev + rs[prev].size == p || p == lo)
    requires forall j: nat :: FreePair(rs, j) ==> j == p || j + rs[j].size == p
    requires FreePair(MergePrev(rs, p, prev), k)
    ensures k == if prev + rs[prev].size == p && rs[prev].isFree then prev else p
  {
    if prev + rs[prev].size == p && rs[prev].isFree {
      JoinPairs(rs, lo, hi, prev, k);
      if k != prev {
        EndsUnique(rs, lo, hi, k, prev);
      }
    } else if k != p {
      EndsUnique(rs, lo, hi, k, prev);
    }
  }

  lemma MergeNextCoalesced(rs: Partition, lo: nat, hi: nat, c: nat)
    requires Tiled(rs, lo, hi) && c in rs && forall j: nat :: FreePair(rs, j) ==> j == c
    ensures Coalesced(MergeNext(rs, c))
  {
    forall k: nat ensures !FreePair(MergeNext(rs, c), k) {
      if FreePair(rs, c) && FreePair(Joined(rs, c), k) {
        JoinPairs(rs, lo, hi, c, k);
      }
    }
    NoPairs(MergeNext(rs, c));
  }
}
