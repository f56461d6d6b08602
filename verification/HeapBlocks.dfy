/** One section of the kernel heap of kernel/src/Memory/Heap.cpp. */
module HeapBlocks {

  // Blocks with a 16-byte header tile the section; the free ones are linked in order of their address.
  // A block is a region that includes its header.

  import opened Regions
  import opened RegionAllocator

  const HEADER: nat := 16
  const SECTION_HEADER: nat := 32

  predicate Ascending(l: seq<nat>) {
    forall i, j :: 0 <= i < j < |l| ==> l[i] < l[j]
  }

  /** The list holds exactly the free blocks, by address. */
  ghost predicate FreeOf(rs: Partition, l: seq<nat>) {
    Ascending(l) && forall a :: a in l <==> a in rs && rs[a].isFree
  }

  /** A sorted list is determined by its elements. */
  lemma {:induction false} SortedUnique(l: seq<nat>, m: seq<nat>)
    requires Ascending(l) && Ascending(m) && forall a :: a in l <==> a in m
    ensures l == m
    decreases |l|
  {
    assert l != [] ==> l[0] in m;
    assert m != [] ==> m[0] in l;
    if l != [] {
      var x, y := l[0], m[0];
      assert x in m && y in l;
      assert x == y;
      forall a ensures a in l[1..] <==> a in m[1..] {
        if a in l[1..] {
          var i :| 0 <= i < |l| - 1 && l[1..][i] == a;
          assert l[i + 1] == a && a > x && a in m;
        }
        if a in m[1..] {
          var i :| 0 <= i < |m| - 1 && m[1..][i] == a;
          assert m[i + 1] == a && a > x && a in l;
        }
      }
      SortedUnique(l[1..], m[1..]);
      assert l == [x] + l[1..] && m == [y] + m[1..];
    }
  }

  // ---------- Changing a sorted list at one place ----------

  lemma RemoveAt(l: seq<nat>, j: nat)
    requires Ascending(l) && j < |l|
    ensures var m := l[..j] + l[j + 1..]; Ascending(m) && forall a :: a in m <==> a in l && a != l[j]
  {
    var m := l[..j] + l[j + 1..];
    forall a ensures a in m <==> a in l && a != l[j] {
      if a in l && a != l[j] {
        var i :| 0 <= i < |l| && l[i] == a;
        assert m[if i < j then i else i - 1] == a;
      }
    }
  }

  lemma ReplaceAt(l: seq<nat>, j: nat, x: nat)
    requires Ascending(l) && j < |l|
    requires (j == 0 || l[j - 1] < x) && (j + 1 == |l| || x < l[j + 1]) && (x == l[j] || x !in l)
    ensures var m := l[j := x]; Ascending(m) && forall a :: a in m <==> (a in l && a != l[j]) || a == x
  {
    var m := l[j := x];
    forall a ensures a in m <==> (a in l && a != l[j]) || a == x {
      if a in l && a != l[j] {
        var i :| 0 <= i < |l| && l[i] == a;
        assert m[i] == a;
      }
      if a == x {
        assert m[j] == a;
      }
    }
  }

  lemma InsertAt(l: seq<nat>, j: nat, x: nat)
    requires Ascending(l) && j <= |l| && (j == 0 || l[j - 1] < x) && (j == |l| || x < l[j])
    ensures var m := l[..j] + [x] + l[j..]; Ascending(m) && forall a :: a in m <==> a in l || a == x
  {
    var m := l[..j] + [x] + l[j..];
    forall a ensures a in m <==> a in l || a == x {
      if a in l {
        var i :| 0 <= i < |l| && l[i] == a;
        assert m[if i < j then i else i + 1] == a;
      }
      if a == x {
        assert m[j] == a;
      }
    }
  }

  // ---------- A section ----------

  /** A section header, the headers of its blocks, and the order in which the free ones are linked. */
  datatype Section = Section(start: nat, size: nat, blocks: Partition, freeList: seq<nat>) {
    function First(): nat { start + SECTION_HEADER }

    function End(): nat { start + SECTION_HEADER + size }
  }

  predicate Mult16(x: int) {
    x % 16 == 0
  }

  lemma Mult16Sum(x: int, y: int)
    requires Mult16(x) && Mult16(y)
    ensures Mult16(x + y) && Mult16(x - y)
  {
  }

  /** Blocks hold their header and a multiple of 16 bytes, at an address that is one. */
  ghost predicate Sized(rs: Partition) {
    forall k :: k in rs ==> Mult16(k) && HEADER <= rs[k].size && Mult16(rs[k].size)
  }

  /** The last block holds at least 32 bytes. */
  ghost predicate LastHolds32(rs: Partition, hi: nat) {
    forall k :: k in rs && k + rs[k].size == hi ==> rs[k].size >= HEADER + 32
  }

  /** What the tiling of a section keeps. */
  ghost predicate Solid(rs: Partition, lo: nat, hi: nat) {
    Tiled(rs, lo, hi) && Coalesced(rs) && Sized(rs) && LastHolds32(rs, hi)
  }

  ghost predicate SectionOk(s: Section) {
    Mult16(s.start) && Mult16(s.size) && Solid(s.blocks, s.First(), s.End()) && FreeOf(s.blocks, s.freeList)
  }

  // ---------- Allocating ----------

  /** The size of the block that a request takes out of a free block: the rest must hold more than 16 bytes to be kept. */
  function TakenSize(available: nat, request: nat): nat {
    if available > request + HEADER + 16 + HEADER then HEADER + request else available
  }

  function TakenList(l: seq<nat>, j: nat, c: nat, size: nat): seq<nat> {
    if j >= |l| then l else if c < size then l[j := l[j] + c] else l[..j] + l[j + 1..]
  }

  lemma TakenFree(rs: Partition, lo: nat, hi: nat, l: seq<nat>, j: nat, c: nat)
    requires Tiled(rs, lo, hi) && FreeOf(rs, l) && j < |l| && l[j] in rs && 0 < c <= rs[l[j]].size
    ensures FreeOf(AfterTake(rs, l[j], c), TakenList(l, j, c, rs[l[j]].size))
  {
    var k := l[j];
    assert k in l;
    CutFields(rs, lo, hi, k, k, c);
    var rs' := SetFlag(Cut(rs, k, k, c), k, false);
    if c < rs[k].size {
      TakenPlace(rs, lo, hi, l, j, c);
      ReplaceAt(l, j, k + c);
    } else {
      RemoveAt(l, j);
    }
    hide Tiled, Cut;
  }

  /** The rest of the block lies before the next free block. */
  lemma TakenPlace(rs: Partition, lo: nat, hi: nat, l: seq<nat>, j: nat, c: nat)
    requires Tiled(rs, lo, hi) && FreeOf(rs, l) && j < |l| && l[j] in rs && 0 < c < rs[l[j]].size
    ensures (j == 0 || l[j - 1] < l[j] + c) && (j + 1 == |l| || l[j] + c < l[j + 1]) && l[j] + c !in l
  {
    var k := l[j];
    Inside(rs, lo, hi, k, k + c);
    if j + 1 < |l| {
      assert l[j + 1] in l;
      assert k < l[j + 1];
    }
  }

  lemma TakenSized(rs: Partition, lo: nat, hi: nat, k: nat, c: nat)
    requires Tiled(rs, lo, hi) && k in rs && Sized(rs) && LastHolds32(rs, hi)
    requires HEADER <= c <= rs[k].size && Mult16(c) && (c < rs[k].size ==> rs[k].size - c >= HEADER + 32)
    ensures k in Cut(rs, k, k, c)
    ensures var rs' := SetFlag(Cut(rs, k, k, c), k, false); Sized(rs') && LastHolds32(rs', hi)
  {
    CutFields(rs, lo, hi, k, k, c);
    WithinEnd(rs, lo, hi, k);
    Mult16Sum(rs[k].size, c);
    Mult16Sum(k, c);
    hide Tiled, Cut, Mult16;
    var rs' := SetFlag(Cut(rs, k, k, c), k, false);
    forall x | x in rs' ensures Mult16(x) && HEADER <= rs'[x].size && Mult16(rs'[x].size) && (x + rs'[x].size == hi ==> rs'[x].size >= HEADER + 32) {
      if x != k && x in rs {
        assert rs'[x] == rs[x];
      }
    }
  }

  /** What is left of a block is kept exactly if it holds 32 bytes, so the block handed out is at most 32 bytes too large. */
  lemma TakenSizes(available: nat, request: nat)
    requires Mult16(available) && Mult16(request) && HEADER + request <= available
    ensures var c := TakenSize(available, request);
      && HEADER + request <= c <= available && Mult16(c) && c <= HEADER + request + 32
      && (if available - (HEADER + request) >= HEADER + 32 then c == HEADER + request else c == available)
  {
    Mult16Sum(available, request);
  }

  /** The blocks after `c` bytes of the free block `k` are taken, header included. */
  function AfterTake(rs: Partition, k: nat, c: nat): Partition {
    if k in rs && c <= rs[k].size && k in Cut(rs, k, k, c) then SetFlag(Cut(rs, k, k, c), k, false) else rs
  }

  lemma TakenSolid(rs: Partition, lo: nat, hi: nat, k: nat, c: nat)
    requires Solid(rs, lo, hi) && k in rs && rs[k].isFree
    requires HEADER <= c <= rs[k].size && Mult16(c) && (c < rs[k].size ==> rs[k].size - c >= HEADER + 32)
    ensures var rs' := AfterTake(rs, k, c);
      && Solid(rs', lo, hi) && Used(rs') == Used(rs)[k := c] && |FreeSet(rs, lo, hi)| == |FreeSet(rs', lo, hi)| + c
      && |rs'| == |rs| + (if c < rs[k].size then 1 else 0)
  {
    hide Tiled, Coalesced, Sized, LastHolds32, Used, FreeSet, Cut, SetFlag, Mult16;
    Taken(rs, lo, hi, k, k, c);
    TakenSized(rs, lo, hi, k, c);
    TakenCount(rs, lo, hi, k, c);
  }

  /** The section after a request of `request` bytes is met from its `j`th free block. */
  function TakenSection(s: Section, j: nat, request: nat): Section {
    if j >= |s.freeList| || s.freeList[j] !in s.blocks then s
    else
      var k := s.freeList[j];
      var c := TakenSize(s.blocks[k].size, request);
      s.(blocks := AfterTake(s.blocks, k, c), freeList := TakenList(s.freeList, j, c, s.blocks[k].size))
  }

  lemma ListedFree(s: Section, j: nat)
    requires SectionOk(s) && j < |s.freeList|
    ensures var k := s.freeList[j];
      k in s.blocks && s.blocks[k].isFree && Mult16(s.blocks[k].size) && Tiled(s.blocks, s.First(), s.End()) && HEADER <= s.blocks[k].size
  {
    assert s.freeList[j] in s.freeList;
  }

  lemma TakenSectionOk(s: Section, j: nat, request: nat)
    requires SectionOk(s) && j < |s.freeList| && s.freeList[j] in s.blocks && HEADER + request <= s.blocks[s.freeList[j]].size && Mult16(request)
    ensures var k := s.freeList[j];
      var c, s' := TakenSize(s.blocks[k].size, request), TakenSection(s, j, request);
      && SectionOk(s') && HEADER + request <= c <= s.blocks[k].size && c <= HEADER + request + 32 && s'.start == s.start && s'.size == s.size
      && Used(s'.blocks) == Used(s.blocks)[k := c]
      && |FreeSet(s.blocks, s.First(), s.End())| == |FreeSet(s'.blocks, s.First(), s.End())| + c
      && |s'.blocks| == |s.blocks| + (if c < s.blocks[k].size then 1 else 0)
      && |s'.freeList| == |s.freeList| - (if c < s.blocks[k].size then 0 else 1)
  {
    hide Solid, Tiled, FreeOf, Used, FreeSet, AfterTake, Mult16, TakenSize;
    var k := s.freeList[j];
    ListedFree(s, j);
    TakenSizes(s.blocks[k].size, request);
    var c := TakenSize(s.blocks[k].size, request);
    TakenSolid(s.blocks, s.First(), s.End(), k, c);
    TakenFree(s.blocks, s.First(), s.End(), s.freeList, j, c);
  }

  lemma TakenCount(rs: Partition, lo: nat, hi: nat, k: nat, c: nat)
    requires Tiled(rs, lo, hi) && k in rs && 0 < c <= rs[k].size && k in Cut(rs, k, k, c)
    ensures |SetFlag(Cut(rs, k, k, c), k, false)| == |rs| + (if c < rs[k].size then 1 else 0)
  {
    Inside(rs, lo, hi, k, k + c);
    var rs' := SetFlag(Cut(rs, k, k, c), k, false);
    hide Tiled;
    if c < rs[k].size {
      assert rs'.Keys == rs.Keys + {k + c};
    } else {
      assert rs'.Keys == rs.Keys;
    }
  }

  // ---------- Freeing ----------

  /** The block that ends where the used block `k` begins; `k` itself at the start of the section. */
  ghost predicate Before(rs: Partition, lo: nat, k: nat, prev: nat) {
    k in rs && !rs[k].isFree && IsPrevious(SetFlag(rs, k, true), lo, k, prev)
  }

  ghost predicate JoinsPrev(rs: Partition, k: nat, prev: nat) {
    k in rs && prev in rs && Merges(SetFlag(rs, k, true), prev, k)
  }

  ghost predicate JoinsNext(rs: Partition, k: nat) {
    k in rs && var q, rs1 := k + rs[k].size, SetFlag(rs, k, true); q in rs1 && rs1[q].isFree
  }

  /** The blocks after `k` is freed and merged with its neighbours. */
  ghost function AfterFree(rs: Partition, k: nat, prev: nat): Partition {
    if k in rs && prev in rs then Released(SetFlag(rs, k, true), k, prev) else rs
  }

  lemma FreedTiling(rs: Partition, lo: nat, hi: nat, k: nat, prev: nat)
    requires Tiled(rs, lo, hi) && Coalesced(rs) && Before(rs, lo, k, prev)
    ensures var rs' := AfterFree(rs, k, prev);
      Tiled(rs', lo, hi) && Coalesced(rs') && Used(rs') == Used(rs) - {k} && |FreeSet(rs', lo, hi)| == |FreeSet(rs, lo, hi)| + rs[k].size
  {
    var n := rs[k].size;
    Positive(rs, lo, hi, k);
    assert Cut(rs, k, k, n) == rs;
    hide Tiled, Coalesced, Used, FreeSet, Cut, Released;
    Freed(rs, lo, hi, k, k, n, prev);
  }

  // ---------- Sizes after freeing ----------

  lemma JoinSized(rs: Partition, hi: nat, c: nat)
    requires FreePair(rs, c) && Sized(rs) && LastHolds32(rs, hi) && 0 < rs[c].size
    ensures Sized(Joined(rs, c)) && LastHolds32(Joined(rs, c), hi) && |Joined(rs, c)| == |rs| - 1
  {
    var q, rs' := c + rs[c].size, Joined(rs, c);
    Mult16Sum(rs[c].size, rs[q].size);
    hide Mult16;
    assert rs'.Keys == rs.Keys - {q};
    forall x | x in rs' ensures Mult16(x) && HEADER <= rs'[x].size && Mult16(rs'[x].size) && (x + rs'[x].size == hi ==> rs'[x].size >= HEADER + 32) {
      if x == c {
        assert q + rs[q].size == c + rs'[c].size;
      }
    }
  }

  lemma FlagSized(rs: Partition, hi: nat, k: nat)
    requires k in rs && Sized(rs) && LastHolds32(rs, hi)
    ensures Sized(SetFlag(rs, k, true)) && LastHolds32(SetFlag(rs, k, true), hi) && |SetFlag(rs, k, true)| == |rs|
  {
    assert SetFlag(rs, k, true).Keys == rs.Keys;
    hide Mult16;
  }

  lemma ReleasedSized(rs1: Partition, lo: nat, hi: nat, k: nat, prev: nat)
    requires Tiled(rs1, lo, hi) && k in rs1 && rs1[k].isFree && IsPrevious(rs1, lo, k, prev) && Sized(rs1) && LastHolds32(rs1, hi)
    ensures var rs', q := Released(rs1, k, prev), k + rs1[k].size;
      && Sized(rs') && LastHolds32(rs', hi)
      && |rs'| == |rs1| - (if Merges(rs1, prev, k) then 1 else 0) - (if q in rs1 && rs1[q].isFree then 1 else 0)
  {
    hide Tiled, Sized, LastHolds32;
    PrevMerged(rs1, lo, hi, k, prev);
    Positive(rs1, lo, hi, prev);
    var rs2, c := MergePrev(rs1, k, prev), if Merges(rs1, prev, k) then prev else k;
    Positive(rs2, lo, hi, c);
    if Merges(rs1, prev, k) {
      JoinSized(rs1, hi, prev);
    }
    hide Joined;
    if FreePair(rs2, c) {
      JoinSized(rs2, hi, c);
    }
  }

  lemma FreedSized(rs: Partition, lo: nat, hi: nat, k: nat, prev: nat)
    requires Tiled(rs, lo, hi) && Sized(rs) && LastHolds32(rs, hi) && Before(rs, lo, k, prev)
    ensures var rs' := AfterFree(rs, k, prev);
      && Sized(rs') && LastHolds32(rs', hi)
      && |rs'| == |rs| - (if JoinsPrev(rs, k, prev) then 1 else 0) - (if JoinsNext(rs, k) then 1 else 0)
  {
    hide Tiled, Sized, LastHolds32, Released;
    FlagTiled(rs, lo, hi, k, true);
    FlagSized(rs, hi, k);
    ReleasedSized(SetFlag(rs, k, true), lo, hi, k, prev);
  }

  lemma FreedSolid(rs: Partition, lo: nat, hi: nat, k: nat, prev: nat)
    requires Solid(rs, lo, hi) && Before(rs, lo, k, prev)
    ensures var rs' := AfterFree(rs, k, prev);
      && Solid(rs', lo, hi) && Used(rs') == Used(rs) - {k} && |FreeSet(rs', lo, hi)| == |FreeSet(rs, lo, hi)| + rs[k].size
      && |rs'| == |rs| - (if JoinsPrev(rs, k, prev) then 1 else 0) - (if JoinsNext(rs, k) then 1 else 0)
  {
    hide Tiled, Coalesced, Sized, LastHolds32, Used, FreeSet, AfterFree, JoinsPrev, JoinsNext;
    FreedTiling(rs, lo, hi, k, prev);
    FreedSized(rs, lo, hi, k, prev);
  }

  // ---------- The free list after freeing ----------

  /** The place of a used block among the free ones. */
  ghost predicate PlaceOf(l: seq<nat>, k: nat, j: nat) {
    j <= |l| && (forall i :: 0 <= i < j ==> l[i] < k) && forall i :: j <= i < |l| ==> k < l[i]
  }

  /** The free block before the place ends where the block begins. */
  predicate MergesBefore(rs: Partition, l: seq<nat>, k: nat, j: nat) {
    0 < j <= |l| && l[j - 1] in rs && l[j - 1] + rs[l[j - 1]].size == k
  }

  /** The block ends where the next free block begins. */
  predicate MergesAfter(rs: Partition, l: seq<nat>, k: nat, j: nat) {
    k in rs && j < |l| && k + rs[k].size == l[j]
  }

  function FreedList(l: seq<nat>, k: nat, j: nat, before: bool, after: bool): seq<nat> {
    if j > |l| then l
    else if before then (if after && j < |l| then l[..j] + l[j + 1..] else l)
    else if after && j < |l| then l[j := k] else l[..j] + [k] + l[j..]
  }

  lemma MergesBeforeIs(rs: Partition, lo: nat, hi: nat, l: seq<nat>, k: nat, j: nat, prev: nat)
    requires Tiled(rs, lo, hi) && FreeOf(rs, l) && PlaceOf(l, k, j) && Before(rs, lo, k, prev)
    ensures JoinsPrev(rs, k, prev) <==> MergesBefore(rs, l, k, j)
    ensures MergesBefore(rs, l, k, j) ==> prev == l[j - 1] && prev in l
  {
    Positive(rs, lo, hi, k);
    if MergesBefore(rs, l, k, j) {
      var p := l[j - 1];
      assert p in l && p < k;
      WithinEnd(rs, lo, hi, p);
      EndsUnique(rs, lo, hi, p, prev);
    }
    if JoinsPrev(rs, k, prev) {
      assert prev in rs && prev != k && rs[prev].isFree && prev in l;
      var i :| 0 <= i < |l| && l[i] == prev;
      assert i < j;
      assert l[j - 1] in l && l[j - 1] < k;
    }
  }

  lemma MergesAfterIs(rs: Partition, lo: nat, hi: nat, l: seq<nat>, k: nat, j: nat)
    requires Tiled(rs, lo, hi) && FreeOf(rs, l) && k in rs && !rs[k].isFree && PlaceOf(l, k, j)
    ensures JoinsNext(rs, k) <==> MergesAfter(rs, l, k, j)
  {
    var q := k + rs[k].size;
    Positive(rs, lo, hi, k);
    if MergesAfter(rs, l, k, j) {
      assert l[j] in l;
    }
    if q in rs && rs[q].isFree {
      assert q in l;
      var i :| 0 <= i < |l| && l[i] == q;
      assert j <= i;
      assert l[j] in l && k < l[j];
    }
  }

  /** The sorted list after a block is freed. */
  lemma FreedListSound(l: seq<nat>, k: nat, j: nat, before: bool, after: bool)
    requires Ascending(l) && PlaceOf(l, k, j) && (before ==> j > 0) && (after ==> j < |l|)
    ensures var m := FreedList(l, k, j, before, after);
      && Ascending(m) && (forall a :: a in m <==> (a in l && !(after && a == l[j])) || (!before && a == k))
      && |m| == |l| + 1 - (if before then 1 else 0) - (if after then 1 else 0)
  {
    if before && after {
      RemoveAt(l, j);
    } else if before {
    } else if after {
      ReplaceAt(l, j, k);
    } else {
      InsertAt(l, j, k);
    }
  }

  /** Which blocks are free after the merges. */
  lemma ReleasedFree(rs1: Partition, lo: nat, hi: nat, k: nat, prev: nat, a: nat)
    requires Tiled(rs1, lo, hi) && k in rs1 && rs1[k].isFree && IsPrevious(rs1, lo, k, prev)
    ensures var rs', q := Released(rs1, k, prev), k + rs1[k].size;
      (a in rs' && rs'[a].isFree) <==>
        || (a in rs1 && rs1[a].isFree && a != k && !(Merges(rs1, prev, k) && a == prev) && !(q in rs1 && rs1[q].isFree && a == q))
        || a == if Merges(rs1, prev, k) then prev else k
  {
    var rs' := Released(rs1, k, prev);
    hide Tiled, Released, IsPrevious;
    if a in rs' {
      ReleasedRegions(rs1, lo, hi, k, prev, rs'[a].size, a);
    }
    if a in rs1 {
      ReleasedRegions(rs1, lo, hi, k, prev, rs1[a].size, a);
    }
    ReleasedRegions(rs1, lo, hi, k, prev, MergeOf(rs1, k, prev).size, a);
  }

  lemma AfterFreeFree(rs: Partition, lo: nat, hi: nat, k: nat, prev: nat, a: nat)
    requires Tiled(rs, lo, hi) && Before(rs, lo, k, prev)
    ensures var rs' := AfterFree(rs, k, prev);
      (a in rs' && rs'[a].isFree) <==>
        || (a in rs && rs[a].isFree && !(JoinsNext(rs, k) && a == k + rs[k].size))
        || (!JoinsPrev(rs, k, prev) && a == k)
  {
    hide Tiled, Released;
    FlagTiled(rs, lo, hi, k, true);
    Positive(rs, lo, hi, k);
    Positive(rs, lo, hi, prev);
    ReleasedFree(SetFlag(rs, k, true), lo, hi, k, prev, a);
  }

  lemma FreedFree(rs: Partition, lo: nat, hi: nat, l: seq<nat>, k: nat, j: nat, prev: nat)
    requires Tiled(rs, lo, hi) && FreeOf(rs, l) && PlaceOf(l, k, j) && Before(rs, lo, k, prev)
    ensures var m := FreedList(l, k, j, MergesBefore(rs, l, k, j), MergesAfter(rs, l, k, j));
      && FreeOf(AfterFree(rs, k, prev), m)
      && |m| == |l| + 1 - (if JoinsPrev(rs, k, prev) then 1 else 0) - (if JoinsNext(rs, k) then 1 else 0)
  {
    var rs', m := AfterFree(rs, k, prev), FreedList(l, k, j, MergesBefore(rs, l, k, j), MergesAfter(rs, l, k, j));
    FreedListSound(l, k, j, MergesBefore(rs, l, k, j), MergesAfter(rs, l, k, j));
    MergesBeforeIs(rs, lo, hi, l, k, j, prev);
    MergesAfterIs(rs, lo, hi, l, k, j);
    hide Tiled, AfterFree, FreedList, PlaceOf, JoinsPrev, JoinsNext, Ascending, MergesBefore, Before;
    forall a ensures a in m <==> a in rs' && rs'[a].isFree {
      if a >= 0 {
        AfterFreeFree(rs, lo, hi, k, prev, a);
      }
    }
  }

  /** The section after its block at `k` is freed. */
  ghost function FreedSection(s: Section, k: nat, j: nat, prev: nat): Section {
    s.(blocks := AfterFree(s.blocks, k, prev),
       freeList := FreedList(s.freeList, k, j, MergesBefore(s.blocks, s.freeList, k, j), MergesAfter(s.blocks, s.freeList, k, j)))
  }

  lemma FreedSectionOk(s: Section, k: nat, j: nat, prev: nat)
    requires SectionOk(s) && PlaceOf(s.freeList, k, j) && Before(s.blocks, s.First(), k, prev)
    ensures var s' := FreedSection(s, k, j, prev);
      && SectionOk(s') && s'.start == s.start && s'.size == s.size && Used(s'.blocks) == Used(s.blocks) - {k}
      && |FreeSet(s'.blocks, s.First(), s.End())| == |FreeSet(s.blocks, s.First(), s.End())| + s.blocks[k].size
      && |s'.blocks| == |s.blocks| - (if JoinsPrev(s.blocks, k, prev) then 1 else 0) - (if JoinsNext(s.blocks, k) then 1 else 0)
      && |s'.freeList| == |s.freeList| + 1 - (if JoinsPrev(s.blocks, k, prev) then 1 else 0) - (if JoinsNext(s.blocks, k) then 1 else 0)
  {
    hide Tiled, Coalesced, FreeOf, Sized, LastHolds32, Used, FreeSet, PlaceOf, JoinsPrev, JoinsNext, AfterFree, FreedList, MergesBefore, MergesAfter;
    FreedSolid(s.blocks, s.First(), s.End(), k, prev);
    FreedFree(s.blocks, s.First(), s.End(), s.freeList, k, j, prev);
  }
}
