/** HeapAllocator of kernel/src/Memory/Heap.cpp. */
module HeapAllocators {
  import opened Basics
  import opened Regions
  import opened RegionAllocator
  import opened HeapBlocks
  import opened Heap
  import opened HeapWrites

  // ---------- Finding a block ----------

  /** The `j`th free block of the section is large enough. */
  predicate FitsAt(s: Section, j: nat, request: nat) {
    j < |s.freeList| && s.freeList[j] in s.blocks && s.blocks[s.freeList[j]].size >= HEADER + request
  }

  ghost predicate NoneFits(s: Section, request: nat) {
    forall j: nat :: !FitsAt(s, j, request)
  }

  /** The first block that fits: in the first section that has one, the one with the lowest address. */
  ghost predicate FirstFit(ss: seq<Section>, request: nat, i: nat, j: nat) {
    && i < |ss| && FitsAt(ss[i], j, request)
    && (forall j': nat :: j' < j ==> !FitsAt(ss[i], j', request))
    && (forall i' :: 0 <= i' < i ==> NoneFits(ss[i'], request))
  }

  /** The inner loop of Allocate. */
  method SearchSection(s: Section, request: nat) returns (j: Option<nat>)
    requires SectionOk(s)
    ensures j.None? ==> NoneFits(s, request)
    ensures j.Some? ==> FitsAt(s, j.value, request) && forall j': nat :: j' < j.value ==> !FitsAt(s, j', request)
  {
    j := None;
    var n := 0;
    while n < |s.freeList| && j.None?
      invariant n <= |s.freeList| && forall j': nat :: j' < n ==> !FitsAt(s, j', request)
      invariant j.Some? ==> j.value == n && FitsAt(s, n, request)
      decreases |s.freeList| - n, j.None?
    {
      ListedFree(s, n);
      hide SectionOk;
      if s.blocks[s.freeList[n]].size >= HEADER + request {
        j := Some(n);
      } else {
        n := n + 1;
      }
    }
  }

  /** The outer loop. */
  method Search(ss: seq<Section>, request: nat) returns (i: nat, j: Option<nat>)
    requires SectionsOk(ss)
    ensures j.None? ==> forall i' :: 0 <= i' < |ss| ==> NoneFits(ss[i'], request)
    ensures j.Some? ==> FirstFit(ss, request, i, j.value)
  {
    i, j := 0, None;
    hide SectionOk, FitsAt, NoneFits;
    while i < |ss| && j.None?
      invariant i <= |ss| && forall i' :: 0 <= i' < i ==> NoneFits(ss[i'], request)
      invariant j.Some? ==> FirstFit(ss, request, i, j.value)
      decreases |ss| - i, j.None?
    {
      j := SearchSection(ss[i], request);
      if j.None? {
        i := i + 1;
      }
    }
  }

  /** Takes the request out of a free block: splits it if enough is left over, and unlinks it. `w` are the headers it writes. */
  method Take(s: Section, j: nat, request: nat) returns (s': Section, isSplit: bool, ghost w: set<Place>)
    requires FitsAt(s, j, request)
    ensures s' == TakenSection(s, j, request)
    ensures var k := s.freeList[j]; isSplit <==> TakenSize(s.blocks[k].size, request) < s.blocks[k].size
    ensures WroteOnlyIn(s, s', w)
    ensures w == {BlockHeader(s.freeList[j]), PointsTo(s, j)} + if isSplit then {BlockHeader(s.freeList[j] + HEADER + request)} else {}
  {
    var k := s.freeList[j];
    var size := s.blocks[k].size;
    var blocks, list := s.blocks, s.freeList;
    w := {};
    isSplit := size - HEADER > request + HEADER + 16;
    if isSplit {
      var rest := k + HEADER + request;
      blocks := blocks[k := Region(HEADER + request, blocks[k].isFree)];
      blocks := blocks[rest := Region(size - (HEADER + request), s.blocks[k].isFree)];
      list := list[j := rest];
      w := w + {BlockHeader(rest)};
    } else {
      list := list[..j] + list[j + 1..];
    }
    blocks := blocks[k := blocks[k].(isFree := false)];
    w := w + {BlockHeader(k), PointsTo(s, j)};
    s' := s.(blocks := blocks, freeList := list);
    TakenWrites(s, j, request, w);
  }

  lemma TakenWrites(s: Section, j: nat, request: nat, w: set<Place>)
    requires FitsAt(s, j, request) && BlockHeader(s.freeList[j]) in w && PointsTo(s, j) in w
    requires TakenSize(s.blocks[s.freeList[j]].size, request) < s.blocks[s.freeList[j]].size ==> BlockHeader(s.freeList[j] + HEADER + request) in w
    ensures WroteOnlyIn(s, TakenSection(s, j, request), w)
  {
    var s', k := TakenSection(s, j, request), s.freeList[j];
    var size := s.blocks[k].size;
    forall b, next | BlockHeader(b) !in w && LinkedTo(s'.freeList, b, next) ensures LinkedTo(s.freeList, b, next) {
      TakenLinks(s.freeList, j, TakenSize(size, request), size, b, next);
    }
    assert j > 0 ==> ItemAt(s'.freeList, 0) == ItemAt(s.freeList, 0);
    hide LinkedTo, WroteOnlyIn;
    WroteOnlyInIntro(s, s', w);
  }

  // ---------- Finding the place of a block ----------

  /** The test with which Free looks for the section of a block. */
  predicate Holds(s: Section, k: nat) {
    s.start + SECTION_HEADER <= k < s.start + s.size
  }

  lemma HoldsOne(ss: seq<Section>, i: nat, j: nat, k: nat)
    requires SectionsOk(ss) && i < |ss| && j < |ss| && k in Used(ss[i].blocks)
    ensures Holds(ss[j], k) <==> i == j
  {
    UsedWithin(ss[i], k);
    SectionTest(ss[i], k);
    hide SectionOk, Used;
    assert i < j ==> Apart(ss[i], ss[j]);
    assert j < i ==> Apart(ss[j], ss[i]);
  }

  method FindSection(ss: seq<Section>, k: nat, ghost at: nat) returns (i: nat)
    requires SectionsOk(ss) && at < |ss| && k in Used(ss[at].blocks)
    ensures i == at
  {
    i := 0;
    hide SectionsOk, Used, Holds;
    HoldsOne(ss, at, i, k);
    while !Holds(ss[i], k)
      invariant i <= at && (Holds(ss[i], k) <==> i == at)
      decreases at - i
    {
      i := i + 1;
      HoldsOne(ss, at, i, k);
    }
  }

  method FindPlace(l: seq<nat>, k: nat) returns (j: nat)
    requires Ascending(l) && k !in l
    ensures PlaceOf(l, k, j)
  {
    j := 0;
    while j < |l| && !(k < l[j])
      invariant j <= |l| && forall i :: 0 <= i < j ==> l[i] < k
    {
      assert l[j] in l;
      j := j + 1;
    }
  }

  lemma PreviousBlock(rs: Partition, lo: nat, hi: nat, k: nat) returns (prev: nat)
    requires Tiled(rs, lo, hi) && k in rs && !rs[k].isFree
    ensures Before(rs, lo, k, prev)
  {
    WithinEnd(rs, lo, hi, k);
    Positive(rs, lo, hi, k);
    if k == lo {
      prev := k;
    } else {
      prev := Covered(rs, lo, hi, k - 1);
      if prev + rs[prev].size > k {
        Inside(rs, lo, hi, prev, k);
      }
    }
  }

  /** The block at `k` marked free, joined with the free block before it. */
  function JoinBefore(rs: Partition, l: seq<nat>, k: nat, j: nat): Partition {
    if k !in rs then rs
    else
      var rs1 := rs[k := rs[k].(isFree := true)];
      if MergesBefore(rs, l, k, j) then (rs1 - {k})[l[j - 1] := Region(rs[l[j - 1]].size + rs[k].size, true)] else rs1
  }

  /** The block that begins at `c` joined with the free block after it. */
  function JoinAfter(rs: Partition, c: nat, q: nat): Partition {
    if c !in rs || q !in rs then rs else (rs - {q})[c := Region(rs[c].size + rs[q].size, true)]
  }

  lemma JoinBeforeIs(rs: Partition, lo: nat, hi: nat, l: seq<nat>, k: nat, j: nat, prev: nat)
    requires Tiled(rs, lo, hi) && FreeOf(rs, l) && PlaceOf(l, k, j) && Before(rs, lo, k, prev)
    ensures prev in rs && JoinBefore(rs, l, k, j) == MergePrev(SetFlag(rs, k, true), k, prev)
  {
    MergesBeforeIs(rs, lo, hi, l, k, j, prev);
    hide Tiled, FreeOf, PlaceOf;
  }

  lemma ReleasedNext(rs1: Partition, lo: nat, hi: nat, k: nat, prev: nat)
    requires Tiled(rs1, lo, hi) && k in rs1 && rs1[k].isFree && IsPrevious(rs1, lo, k, prev)
    ensures var rs2, c, q := MergePrev(rs1, k, prev), if Merges(rs1, prev, k) then prev else k, k + rs1[k].size;
      && c in rs2 && c + rs2[c].size == q
      && Released(rs1, k, prev) == if q in rs1 && rs1[q].isFree then JoinAfter(rs2, c, q) else rs2
  {
    hide Tiled;
    PrevMerged(rs1, lo, hi, k, prev);
    hide MergePrev;
  }

  lemma JoinAfterIs(rs: Partition, lo: nat, hi: nat, l: seq<nat>, k: nat, j: nat, prev: nat)
    requires Tiled(rs, lo, hi) && FreeOf(rs, l) && PlaceOf(l, k, j) && Before(rs, lo, k, prev)
    ensures var rs2, c := JoinBefore(rs, l, k, j), if MergesBefore(rs, l, k, j) then l[j - 1] else k;
      && c in rs2 && (j < |l| ==> (c + rs2[c].size == l[j] <==> MergesAfter(rs, l, k, j)))
      && AfterFree(rs, k, prev) == if MergesAfter(rs, l, k, j) then JoinAfter(rs2, c, l[j]) else rs2
  {
    hide Tiled, FreeOf, PlaceOf, JoinBefore, JoinAfter, MergePrev, MergesBefore, Released, Merges;
    JoinBeforeIs(rs, lo, hi, l, k, j, prev);
    MergesBeforeIs(rs, lo, hi, l, k, j, prev);
    MergesAfterIs(rs, lo, hi, l, k, j);
    FlagTiled(rs, lo, hi, k, true);
    ReleasedNext(SetFlag(rs, k, true), lo, hi, k, prev);
  }

  /** Marks the block free and links it at its place, merging it with the free blocks it touches. `w` are the headers it writes. */
  method Link(s: Section, k: nat, j: nat, ghost prev: nat) returns (s': Section, before: bool, after: bool, ghost w: set<Place>)
    requires SectionOk(s) && PlaceOf(s.freeList, k, j) && Before(s.blocks, s.First(), k, prev)
    ensures s' == FreedSection(s, k, j, prev)
    ensures before == JoinsPrev(s.blocks, k, prev) && after == JoinsNext(s.blocks, k)
    ensures WroteOnlyIn(s, s', w) && PlacesIn(s, w)
  {
    hide SectionOk, PlaceOf, Before, AfterFree, JoinsPrev, JoinsNext, JoinAfter, WroteOnlyIn, PlacesIn;
    var l := s.freeList;
    LinkFacts(s, k, j, prev);
    LinkWrites(s, k, j);
    var rs := s.blocks[k := s.blocks[k].(isFree := true)];
    w := {BlockHeader(k)};
    before := j > 0 && l[j - 1] + s.blocks[l[j - 1]].size == k;
    var c := k;
    if before {
      c := l[j - 1];
      rs := (rs - {k})[c := Region(s.blocks[c].size + s.blocks[k].size, true)];
    }
    assert rs == JoinBefore(s.blocks, l, k, j);
    hide JoinBefore;
    after := j < |l| && c + rs[c].size == l[j];
    if after {
      rs := JoinAfter(rs, c, l[j]);
    }
    l := FreedList(l, k, j, before, after);
    w := w + {PointsTo(s, j)};
    s' := s.(blocks := rs, freeList := l);
  }

  /** What the steps of Link make of the blocks and the list. */
  function Linked(s: Section, k: nat, j: nat): Section {
    var l, rs := s.freeList, s.blocks;
    var before, after := MergesBefore(rs, l, k, j), MergesAfter(rs, l, k, j);
    var rs2, c := JoinBefore(rs, l, k, j), if before then l[j - 1] else k;
    s.(blocks := if after then JoinAfter(rs2, c, l[j]) else rs2, freeList := FreedList(l, k, j, before, after))
  }

  lemma LinkWrites(s: Section, k: nat, j: nat)
    requires k in s.blocks && j <= |s.freeList| && (0 < j ==> s.freeList[j - 1] in s.blocks)
    ensures WroteOnlyIn(s, Linked(s, k, j), {BlockHeader(k)} + {PointsTo(s, j)}) && PlacesIn(s, {BlockHeader(k)} + {PointsTo(s, j)})
  {
    var s', w := Linked(s, k, j), {BlockHeader(k)} + {PointsTo(s, j)};
    forall b, next | BlockHeader(b) !in w && LinkedTo(s'.freeList, b, next) ensures LinkedTo(s.freeList, b, next) {
      FreedLinks(s.freeList, k, j, MergesBefore(s.blocks, s.freeList, k, j), MergesAfter(s.blocks, s.freeList, k, j), b, next);
    }
    assert j > 0 ==> ItemAt(s'.freeList, 0) == ItemAt(s.freeList, 0);
    hide LinkedTo, WroteOnlyIn;
    WroteOnlyInIntro(s, s', w);
  }

  lemma LinkFacts(s: Section, k: nat, j: nat, prev: nat)
    requires SectionOk(s) && PlaceOf(s.freeList, k, j) && Before(s.blocks, s.First(), k, prev)
    ensures var l, rs := s.freeList, s.blocks;
      && k in rs && (0 < j <= |l| ==> l[j - 1] in rs) && j <= |l|
      && (JoinsPrev(rs, k, prev) <==> MergesBefore(rs, l, k, j)) && (JoinsNext(rs, k) <==> MergesAfter(rs, l, k, j))
      && var rs2, c := JoinBefore(rs, l, k, j), if MergesBefore(rs, l, k, j) then l[j - 1] else k;
         && c in rs2 && (j < |l| ==> (c + rs2[c].size == l[j] <==> MergesAfter(rs, l, k, j)))
         && AfterFree(rs, k, prev) == if MergesAfter(rs, l, k, j) then JoinAfter(rs2, c, l[j]) else rs2
  {
    var lo, hi, l := s.First(), s.End(), s.freeList;
    assert Tiled(s.blocks, lo, hi);
    assert 0 < j <= |l| ==> l[j - 1] in l;
    hide Tiled, Solid, AfterFree, JoinBefore, JoinAfter, JoinsPrev, JoinsNext, MergesBefore, MergesAfter;
    MergesBeforeIs(s.blocks, lo, hi, l, k, j, prev);
    MergesAfterIs(s.blocks, lo, hi, l, k, j);
    JoinAfterIs(s.blocks, lo, hi, l, k, j, prev);
  }

  // ---------- A new section ----------

  /** The numbers of 64 bits. */
  const WORD: nat := 0x1_0000_0000_0000_0000

  /** The request for a size: the next multiple of 16, in 64 bits. */
  function Aligned16(size: nat): (r: nat)
    ensures Mult16(r)
  {
    (size + 15) % WORD / 16 * 16
  }

  /** It holds the size if and only if that is at most 2^64 - 16; for a larger one the request is for nothing. */
  lemma AlignedExact(size: nat)
    requires size < WORD
    ensures if size <= WORD - 16 then size <= Aligned16(size) < size + 16 else Aligned16(size) == 0
  {
    if size <= WORD - 16 {
      assert (size + 15) % WORD == size + 15;
    } else {
      assert (size + 15) % WORD == size + 15 - WORD;
    }
  }

  /** The size of the section that Allocate asks for. */
  function SectionSize(request: nat): (r: nat)
    ensures r >= SECTION_HEADER + HEADER + request && r >= MIN_SECTION
  {
    var q := (SECTION_HEADER + HEADER + request + MIN_SECTION - 1) / MIN_SECTION;
    q * MIN_SECTION
  }

  lemma SectionSizeMult(request: nat)
    ensures Mult16(SectionSize(request))
  {
    var q := (SECTION_HEADER + HEADER + request + MIN_SECTION - 1) / MIN_SECTION;
    assert q * MIN_SECTION == 16 * (q * 8192);
  }

  /** A section that is one free block. */
  function Whole(start: nat, size: nat): Section {
    Section(start, size, map[start + SECTION_HEADER := Region(size, true)], [start + SECTION_HEADER])
  }

  lemma WholeOk(start: nat, size: nat)
    requires Mult16(start) && Mult16(size) && size >= HEADER + 32
    ensures SectionOk(Whole(start, size)) && TallyOf(Whole(start, size)) == Tally(size - HEADER, SECTION_HEADER + HEADER, size + SECTION_HEADER)
  {
    var s := Whole(start, size);
    assert Mult16(SECTION_HEADER);
    Mult16Sum(start, SECTION_HEADER);
    hide Mult16;
    assert Tiled(s.blocks, s.First(), s.End()) && Coalesced(s.blocks);
    assert Sized(s.blocks) && LastHolds32(s.blocks, s.End());
    assert Ascending(s.freeList) && FreeOf(s.blocks, s.freeList);
    assert LooksUnused(s);
    hide Tiled, Coalesced, Sized, LastHolds32, FreeOf;
    UnusedTest(s);
  }

  /** The memory from `start` on is apart from every section. */
  ghost predicate Room(ss: seq<Section>, start: nat, total: nat) {
    forall i :: 0 <= i < |ss| ==> ss[i].End() <= start || start + total <= ss[i].start
  }

  lemma PushOk(ss: seq<Section>, s: Section)
    requires SectionsOk(ss) && SectionOk(s) && Room(ss, s.start, SECTION_HEADER + s.size)
    ensures SectionsOk([s] + ss)
  {
    hide SectionOk;
    var ss' := [s] + ss;
    forall i, j | 0 <= i < j < |ss'| ensures Apart(ss'[i], ss'[j]) {
      assert ss'[j] == ss[j - 1];
      if i > 0 {
        assert ss'[i] == ss[i - 1] && Apart(ss[i - 1], ss[j - 1]);
      }
    }
  }

  lemma PushLive(ss: seq<Section>, s: Section, a: nat, n: nat)
    ensures Live([s] + ss, a, n) <==> LiveIn(s, a, n) || Live(ss, a, n)
  {
    hide LiveIn;
    var ss' := [s] + ss;
    if LiveIn(s, a, n) {
      assert LiveIn(ss'[0], a, n);
    }
    if i :| 0 <= i < |ss| && LiveIn(ss[i], a, n) {
      assert LiveIn(ss'[i + 1], a, n);
    }
    if i :| 0 <= i < |ss'| && LiveIn(ss'[i], a, n) {
      assert i > 0 ==> LiveIn(ss[i - 1], a, n);
    }
  }

  lemma PushTally(ss: seq<Section>, s: Section)
    ensures TallyAll([s] + ss) == Add(TallyOf(s), TallyAll(ss))
  {
    assert ([s] + ss)[1..] == ss;
  }

  // ---------- What an allocation does ----------

  /** A new section in front of the others, with the request taken out of it. */
  ghost predicate Pushed(ss: seq<Section>, ss': seq<Section>, request: nat, start: nat) {
    ss' == [TakenSection(Whole(start, SectionSize(request) - SECTION_HEADER), 0, request)] + ss
  }

  /** The block comes from the first free block that fits, or from a new section if none does. */
  ghost predicate Allocated(ss: seq<Section>, ss': seq<Section>, request: nat, k: nat) {
    || (exists i: nat, j: nat :: FirstFit(ss, request, i, j) && k == ss[i].freeList[j] && ss' == ss[i := TakenSection(ss[i], j, request)])
    || ((forall i :: 0 <= i < |ss| ==> NoneFits(ss[i], request)) && k >= SECTION_HEADER && Pushed(ss, ss', request, k - SECTION_HEADER))
  }

  /** The block at `k`, of `c` bytes with its header, is new among the live ones. */
  ghost predicate Added(ss: seq<Section>, ss': seq<Section>, k: nat, c: nat) {
    forall a: nat, n: nat :: Live(ss', a, n) <==> Live(ss, a, n) || (a == k && n == c)
  }

  /** `k` is a new live block, large enough and not much larger, and no other block has come or gone. */
  ghost predicate NewBlock(ss: seq<Section>, ss': seq<Section>, request: nat, k: nat) {
    exists c: nat :: HEADER + request <= c <= HEADER + request + 32 && Added(ss, ss', k, c)
  }

  /** The same of the size asked for, before it is rounded. */
  ghost predicate Granted(ss: seq<Section>, ss': seq<Section>, size: nat, k: nat) {
    exists c: nat :: HEADER + size <= c < HEADER + size + HEADER + 32 && Added(ss, ss', k, c)
  }

  lemma LargeEnough(ss: seq<Section>, ss': seq<Section>, size: nat, k: nat)
    requires size < WORD && NewBlock(ss, ss', Aligned16(size), k)
    ensures size <= WORD - 16 ==> Granted(ss, ss', size, k)
  {
    hide Added, Aligned16;
    AlignedExact(size);
  }

  lemma AddedIntro(ss: seq<Section>, ss': seq<Section>, k: nat, c: nat)
    requires forall a: nat, n: nat :: Live(ss', a, n) <==> Live(ss, a, n) || (a == k && n == c)
    ensures Added(ss, ss', k, c)
  {
  }

  lemma NotLive(s: Section, j: nat)
    requires SectionOk(s) && j < |s.freeList|
    ensures s.freeList[j] !in Used(s.blocks)
  {
    ListedFree(s, j);
  }

  lemma TakenLive(ss: seq<Section>, i: nat, j: nat, request: nat)
    requires SectionsOk(ss) && i < |ss| && FitsAt(ss[i], j, request) && Mult16(request)
    ensures var s' := TakenSection(ss[i], j, request);
      && SectionsOk(ss[i := s']) && NewBlock(ss, ss[i := s'], request, ss[i].freeList[j]) && InUse(s') && s'.size == ss[i].size
  {
    var s, k := ss[i], ss[i].freeList[j];
    var s', c := TakenSection(s, j, request), TakenSize(s.blocks[k].size, request);
    NotLive(s, j);
    TakenOk(s, j, request);
    UpdateOk(ss, i, s');
    LiveTaken(ss, i, s', k, c);
    AddedIntro(ss, ss[i := s'], k, c);
  }

  /** The tally of a section after a request. */
  lemma TakenOk(s: Section, j: nat, request: nat)
    requires SectionOk(s) && FitsAt(s, j, request) && Mult16(request)
    ensures var k := s.freeList[j];
      var c, s', t := TakenSize(s.blocks[k].size, request), TakenSection(s, j, request), TallyOf(s);
      && SectionOk(s') && s'.start == s.start && s'.size == s.size && HEADER + request <= c <= HEADER + request + 32
      && Used(s'.blocks) == Used(s.blocks)[k := c] && k in Used(s'.blocks)
      && TallyOf(s') == if c < s.blocks[k].size then Tally(t.free - c, t.metadata + HEADER, t.total) else Tally(t.free - (c - HEADER), t.metadata, t.total)
  {
    hide SectionOk, Used, FreeSet, Mult16, TakenSize, AfterTake, TakenList;
    TakenSectionOk(s, j, request);
  }

  /** The invariant of the allocator: every section is in order and in use, and the counters are exact. */
  ghost predicate HeapOk(ss: seq<Section>, used: int, t: Tally) {
    && SectionsOk(ss) && (forall i :: 0 <= i < |ss| ==> ss[i].size > 0 && InUse(ss[i]))
    && t == TallyAll(ss) && used + t.free + t.metadata == t.total
  }

  lemma TakenHeap(ss: seq<Section>, used: int, t: Tally, i: nat, j: nat, request: nat)
    requires HeapOk(ss, used, t) && i < |ss| && FitsAt(ss[i], j, request) && Mult16(request)
    ensures var s, k := ss[i], ss[i].freeList[j];
      var ss', size := ss[i := TakenSection(s, j, request)], s.blocks[k].size - HEADER;
      && NewBlock(ss, ss', request, k)
      && if TakenSize(s.blocks[k].size, request) < s.blocks[k].size
         then HeapOk(ss', used + request, Tally(t.free - HEADER - request, t.metadata + HEADER, t.total))
         else HeapOk(ss', used + size, Tally(t.free - size, t.metadata, t.total))
  {
    hide SectionsOk, SectionOk, Used, NewBlock, TakenSection, InUse, Mult16, TallyAll, TallyOf;
    var s := ss[i];
    assert SectionOk(s) by {
      SectionAt(ss, i);
    }
    TakenLive(ss, i, j, request);
    TakenOk(s, j, request);
    TallyUpdate(ss, i, TakenSection(s, j, request));
  }

  lemma EmptyHeap()
    ensures HeapOk([], 0, Tally(0, 0, 0))
  {
  }

  lemma SectionAt(ss: seq<Section>, i: nat)
    requires SectionsOk(ss) && i < |ss|
    ensures SectionOk(ss[i])
  {
  }

  /** The sections and counters of an allocator. */
  datatype State = State(sections: seq<Section>, used: int, tally: Tally)

  ghost predicate StateOk(h: State) {
    HeapOk(h.sections, h.used, h.tally)
  }

  /** The headers that Take writes are those of the section as it leaves it. */
  lemma TakenPlaces(s: Section, j: nat, request: nat, w: set<Place>)
    requires SectionOk(s) && FitsAt(s, j, request) && Mult16(request)
    requires var k := s.freeList[j];
      w == {BlockHeader(k), PointsTo(s, j)} + if TakenSize(s.blocks[k].size, request) < s.blocks[k].size then {BlockHeader(k + HEADER + request)} else {}
    ensures PlacesIn(TakenSection(s, j, request), w)
  {
    var k, s' := s.freeList[j], TakenSection(s, j, request);
    ListedFree(s, j);
    CutFields(s.blocks, s.First(), s.End(), k, k, TakenSize(s.blocks[k].size, request));
    if j > 0 {
      assert s.freeList[j - 1] in s.freeList && s.freeList[j - 1] < k;
    }
    hide SectionOk, Cut;
  }

  /** What an allocation from a free block of section `i` writes. */
  lemma TakenWrote(ss: seq<Section>, i: nat, j: nat, request: nat, w: set<Place>)
    requires SectionsOk(ss) && i < |ss| && FitsAt(ss[i], j, request) && Mult16(request)
    requires WroteOnlyIn(ss[i], TakenSection(ss[i], j, request), w) && PlacesIn(TakenSection(ss[i], j, request), w)
    ensures Wrote(ss, ss[i := TakenSection(ss[i], j, request)], w)
  {
    hide SectionOk, Mult16, TakenSize, PlacesIn, WroteOnlyIn, FitsAt, WroteOnly, Headers, Misses, Live, Used, InUse;
    TakenOk(ss[i], j, request);
    TakenLive(ss, i, j, request);
    FitsBlock(ss[i], j, request);
    var s' := TakenSection(ss[i], j, request);
    hide TakenSection, SectionsOk, TallyOf;
    WroteSection(ss, i, s', w);
    PlacesUpdated(ss, i, s', w);
    NewWrote(ss, ss[i := s'], request, ss[i].freeList[j], w);
  }

  lemma NewWrote(ss: seq<Section>, ss': seq<Section>, request: nat, k: nat, w: set<Place>)
    requires SectionsOk(ss') && WroteOnly(ss, ss', w) && Headers(ss', w) && NewBlock(ss, ss', request, k)
    ensures Wrote(ss, ss', w)
  {
    hide SectionsOk, WroteOnly, Headers, Misses, Live;
    HeadersMiss(ss', w);
    FewerMiss(ss', ss, w);
  }

  /** The case of Allocate that finds a block. */
  method AllocateFrom(h: State, i: nat, j: nat, request: nat) returns (h': State, ptr: nat, ghost w: set<Place>)
    requires StateOk(h) && i < |h.sections| && FitsAt(h.sections[i], j, request) && Mult16(request)
    ensures StateOk(h') && ptr == h.sections[i].freeList[j] + HEADER && NewBlock(h.sections, h'.sections, request, ptr - HEADER)
    ensures h'.sections == h.sections[i := TakenSection(h.sections[i], j, request)] && Wrote(h.sections, h'.sections, w)
  {
    hide HeapOk, NewBlock, TakenSection, Mult16, TakenSize, TallyAll, SectionOk, SectionsOk, WroteOnlyIn, PlacesIn, Wrote, FitsAt;
    var s := h.sections[i];
    HeapSections(h);
    SectionAt(h.sections, i);
    FitsBlock(s, j, request);
    TakenHeap(h.sections, h.used, h.tally, i, j, request);
    var k := s.freeList[j];
    var size := s.blocks[k].size - HEADER;
    var s', isSplit;
    s', isSplit, w := Take(s, j, request);
    TakenPlaces(s, j, request, w);
    TakenWrote(h.sections, i, j, request, w);
    var free, metadata := h.tally.free, h.tally.metadata;
    if isSplit {
      size := request;
      metadata := metadata + HEADER;
      free := free - HEADER;
    }
    h' := State(h.sections[i := s'], h.used + size, Tally(free - size, metadata, h.tally.total));
    ptr := k + HEADER;
  }

  lemma FitsBlock(s: Section, j: nat, request: nat)
    requires FitsAt(s, j, request)
    ensures j < |s.freeList| && s.freeList[j] in s.blocks && s.blocks[s.freeList[j]].size >= HEADER + request
  {
  }

  lemma PushHeap(ss: seq<Section>, used: int, t: Tally, start: nat, request: nat)
    requires HeapOk(ss, used, t) && Mult16(request) && Mult16(start) && Room(ss, start, SectionSize(request))
    ensures var size := SectionSize(request) - SECTION_HEADER;
      var whole := Whole(start, size);
      var ss', rest := [TakenSection(whole, 0, request)] + ss, size - HEADER - request - HEADER;
      && FitsAt(whole, 0, request) && NewBlock(ss, ss', request, start + SECTION_HEADER)
      && if TakenSize(size, request) < size
         then HeapOk(ss', used + request, Tally(t.free + rest, t.metadata + SECTION_HEADER + HEADER + HEADER, t.total + SectionSize(request)))
         else HeapOk(ss', used + size - HEADER, Tally(t.free, t.metadata + SECTION_HEADER + HEADER, t.total + SectionSize(request)))
  {
    hide SectionOk, Mult16, TakenSection, TallyOf, SectionSize, TallyAll, Used, FitsAt, Live, Added, SectionsOk;
    var size, k := SectionSize(request) - SECTION_HEADER, start + SECTION_HEADER;
    var whole := Whole(start, size);
    WholeSize(start, request);
    var s' := TakenSection(whole, 0, request);
    TakenOk(whole, 0, request);
    PushOk(ss, s');
    PushTally(ss, s');
    PushAdded(ss, whole, s', k, TakenSize(size, request));
  }

  lemma PushAdded(ss: seq<Section>, whole: Section, s: Section, k: nat, c: nat)
    requires whole == Whole(whole.start, whole.size) && Used(s.blocks) == Used(whole.blocks)[k := c]
    ensures Added(ss, [s] + ss, k, c)
  {
    assert Used(whole.blocks) == map[];
    forall a: nat, n: nat ensures Live([s] + ss, a, n) <==> Live(ss, a, n) || (a == k && n == c) {
      hide Live, Used;
      PushLive(ss, s, a, n);
    }
    AddedIntro(ss, [s] + ss, k, c);
  }

  lemma WholeSize(start: nat, request: nat)
    requires Mult16(request) && Mult16(start)
    ensures var size := SectionSize(request) - SECTION_HEADER;
      var whole := Whole(start, size);
      SectionOk(whole) && FitsAt(whole, 0, request) && TallyOf(whole) == Tally(size - HEADER, SECTION_HEADER + HEADER, size + SECTION_HEADER) && size > 0
  {
    hide SectionSize, SectionOk;
    SectionSizeMult(request);
    Mult16Sum(SectionSize(request), SECTION_HEADER);
    WholeOk(start, SectionSize(request) - SECTION_HEADER);
  }

  /** All headers of a new section are written. */
  lemma PushedPlaces(start: nat, size: nat, request: nat, w: set<Place>)
    requires FitsAt(Whole(start, size), 0, request)
    requires var k := start + SECTION_HEADER;
      w == {BlockHeader(k), SectionHeader(start)} + if TakenSize(size, request) < size then {BlockHeader(k + HEADER + request)} else {}
    ensures var s := TakenSection(Whole(start, size), 0, request); forall p :: PlaceIn(s, p) <==> p in w
  {
  }

  lemma PushedWrote(ss: seq<Section>, s: Section, request: nat, k: nat, w: set<Place>)
    requires SectionsOk([s] + ss) && (forall p :: PlaceIn(s, p) <==> p in w) && NewBlock(ss, [s] + ss, request, k)
    ensures Wrote(ss, [s] + ss, w)
  {
    hide SectionsOk, NewBlock, PlaceIn;
    WrotePushed(ss, s, w);
    assert ([s] + ss)[0] == s;
    NewWrote(ss, [s] + ss, request, k, w);
  }

  /** The case of Allocate that needs a new section. */
  method AllocateNew(h: State, start: nat, request: nat) returns (h': State, ptr: nat, ghost w: set<Place>)
    requires StateOk(h) && Mult16(request) && Mult16(start) && Room(h.sections, start, SectionSize(request))
    ensures StateOk(h') && ptr == start + SECTION_HEADER + HEADER && NewBlock(h.sections, h'.sections, request, ptr - HEADER)
    ensures Pushed(h.sections, h'.sections, request, start) && Wrote(h.sections, h'.sections, w)
  {
    hide HeapOk, NewBlock, TakenSection, Mult16, SectionSize, TallyAll, Room, FitsAt, SectionsOk, WroteOnlyIn, PlaceIn, Wrote;
    PushHeap(h.sections, h.used, h.tally, start, request);
    var sectionSize := SectionSize(request);
    var size := sectionSize - SECTION_HEADER;
    var s, isSplit;
    s, isSplit, w := Take(Whole(start, size), 0, request);
    PushedPlaces(start, size, request, w);
    var free, metadata, block := h.tally.free, h.tally.metadata + SECTION_HEADER + HEADER, size - HEADER;
    if isSplit {
      metadata := metadata + HEADER;
      free := free + (block - request - HEADER);
      block := request;
    }
    h' := State([s] + h.sections, h.used + block, Tally(free, metadata, h.tally.total + sectionSize));
    ptr := start + SECTION_HEADER + HEADER;
    HeapSections(h');
    PushedWrote(h.sections, s, request, ptr - HEADER, w);
  }

  // ---------- Free ----------

  lemma {:induction false} KeptSnoc(ss: seq<Section>, s: Section)
    ensures Kept(ss + [s]) == Kept(ss) + (if LooksUnused(s) then [] else [s])
    decreases |ss|
  {
    hide LooksUnused;
    if ss == [] {
      assert ss + [s] == [s] && [s][1..] == [];
    } else {
      assert (ss + [s])[1..] == ss[1..] + [s];
      KeptSnoc(ss[1..], s);
    }
  }

  lemma {:induction false} TallyConcat(a: seq<Section>, b: seq<Section>)
    ensures TallyAll(a + b) == Add(TallyAll(a), TallyAll(b))
    decreases |a|
  {
    hide TallyOf;
    if a == [] {
      assert a + b == b;
    } else {
      assert (a + b)[1..] == a[1..] + b;
      TallyConcat(a[1..], b);
    }
  }

  /** Dropping or keeping the next section. */
  lemma ReleaseStep(ss: seq<Section>, n: nat, kept: seq<Section>)
    requires SectionsOk(ss) && n < |ss| && ss[n].size > 0 && kept == Kept(ss[..n])
    ensures var s := ss[n];
      if LooksUnused(s) then
        && Kept(ss[..n + 1]) == kept
        && TallyAll(kept + ss[n..]) == Add(TallyAll(kept + ss[n + 1..]), Tally(s.size - HEADER, SECTION_HEADER + HEADER, s.size + SECTION_HEADER))
      else Kept(ss[..n + 1]) == kept + [s] && kept + [s] + ss[n + 1..] == kept + ss[n..]
  {
    hide SectionOk, LooksUnused, TallyOf, Kept;
    var s := ss[n];
    assert ss[..n + 1] == ss[..n] + [s];
    KeptSnoc(ss[..n], s);
    assert ss[n..] == [s] + ss[n + 1..];
    PushTally(ss[n + 1..], s);
    TallyConcat(kept, ss[n..]);
    TallyConcat(kept, ss[n + 1..]);
    UnusedTest(s);
  }

  /** What the last loop of Free has done after `n` sections. */
  ghost predicate Releasing(ss: seq<Section>, n: nat, kept: seq<Section>, t0: Tally, t: Tally) {
    && n <= |ss| && kept == Kept(ss[..n]) && t == TallyAll(kept + ss[n..])
    && t.free + t.metadata - t.total == t0.free + t0.metadata - t0.total
  }

  lemma ReleasingStart(ss: seq<Section>, t: Tally)
    requires t == TallyAll(ss)
    ensures Releasing(ss, 0, [], t, t)
  {
    assert ss[..0] == [] && [] + ss[0..] == ss;
  }

  lemma ReleasingStep(ss: seq<Section>, n: nat, kept: seq<Section>, t0: Tally, t: Tally)
    requires SectionsOk(ss) && n < |ss| && ss[n].size > 0 && Releasing(ss, n, kept, t0, t)
    ensures var s := ss[n];
      if LooksUnused(s)
      then Releasing(ss, n + 1, kept, t0, Tally(t.free - (s.size - HEADER), t.metadata - (SECTION_HEADER + HEADER), t.total - (s.size + SECTION_HEADER)))
      else Releasing(ss, n + 1, kept + [s], t0, t)
  {
    hide SectionsOk, TallyAll, LooksUnused, Kept;
    ReleaseStep(ss, n, kept);
  }

  lemma ReleasingDone(ss: seq<Section>, kept: seq<Section>, t0: Tally, t: Tally)
    requires Releasing(ss, |ss|, kept, t0, t)
    ensures kept == Kept(ss) && t == TallyAll(kept) && t.free + t.metadata - t.total == t0.free + t0.metadata - t0.total
  {
    assert ss[..|ss|] == ss && kept + ss[|ss|..] == kept;
  }

  /** What it has written. */
  ghost predicate Relinked(ss: seq<Section>, n: nat, kept: seq<Section>, w: set<Place>) {
    && n <= |ss| && (forall s :: s in kept ==> s in ss) && SectionHeaders(ss, w)
    && WroteOnly(ss, kept + ss[n..], w)
  }

  lemma RelinkedStart(ss: seq<Section>)
    ensures Relinked(ss, 0, [], {})
  {
    hide Stored;
    assert [] + ss[0..] == ss;
  }

  lemma RelinkedStep(ss: seq<Section>, n: nat, kept: seq<Section>, w: set<Place>)
    requires n < |ss| && Relinked(ss, n, kept, w)
    ensures Relinked(ss, n + 1, kept, w + LastOf(kept)) && Relinked(ss, n + 1, kept + [ss[n]], w)
  {
    hide WroteOnly, SectionHeaders, LastOf;
    var s, rest := ss[n], ss[n + 1..];
    assert kept + ss[n..] == kept + [s] + rest;
    WroteUnlinked(kept, s, rest);
    WroteBoth(ss, kept + ss[n..], kept + rest, w, LastOf(kept));
    LastOfKept(ss, kept, w);
  }

  lemma RelinkedDone(ss: seq<Section>, kept: seq<Section>, w: set<Place>)
    requires Relinked(ss, |ss|, kept, w)
    ensures WroteOnly(ss, kept, w) && SectionHeaders(ss, w)
  {
    hide WroteOnly, SectionHeaders;
    assert kept + ss[|ss|..] == kept;
  }

  /** The last loop of Free: gives back every section without a used block. */
  method ReleaseUnused(ss: seq<Section>, t: Tally) returns (ss': seq<Section>, t': Tally, ghost w: set<Place>)
    requires SectionsOk(ss) && (forall i :: 0 <= i < |ss| ==> ss[i].size > 0) && t == TallyAll(ss)
    ensures ss' == Kept(ss) && t' == TallyAll(ss') && t'.free + t'.metadata - t'.total == t.free + t.metadata - t.total
    ensures WroteOnly(ss, ss', w) && SectionHeaders(ss, w)
  {
    hide SectionsOk, TallyAll, LooksUnused, Kept, Releasing, Relinked, WroteOnly, SectionHeaders;
    ss', t', w := [], t, {};
    ReleasingStart(ss, t);
    RelinkedStart(ss);
    for n := 0 to |ss|
      invariant Releasing(ss, n, ss', t, t') && Relinked(ss, n, ss', w)
    {
      var s := ss[n];
      ReleasingStep(ss, n, ss', t, t');
      RelinkedStep(ss, n, ss', w);
      if LooksUnused(s) {
        t' := Tally(t'.free - (s.size - HEADER), t'.metadata - (SECTION_HEADER + HEADER), t'.total - (s.size + SECTION_HEADER));
        w := w + LastOf(ss');
      } else {
        ss' := ss' + [s];
      }
    }
    RelinkedDone(ss, ss', w);
    ReleasingDone(ss, ss', t, t');
  }

  /** Linking a block back, before unused sections are released. */
  lemma FreedTally(s: Section, k: nat, j: nat, prev: nat)
    requires SectionOk(s) && PlaceOf(s.freeList, k, j) && Before(s.blocks, s.First(), k, prev)
    ensures var s', t := FreedSection(s, k, j, prev), TallyOf(s);
      var joins := (if JoinsPrev(s.blocks, k, prev) then HEADER else 0) + (if JoinsNext(s.blocks, k) then HEADER else 0);
      && SectionOk(s') && s'.start == s.start && s'.size == s.size && Used(s'.blocks) == Used(s.blocks) - {k}
      && TallyOf(s') == Tally(t.free + (s.blocks[k].size - HEADER) + joins, t.metadata - joins, t.total)
  {
    hide SectionOk, PlaceOf, Before, JoinsPrev, JoinsNext, Used, FreeSet, AfterFree, FreedList;
    FreedSectionOk(s, k, j, prev);
  }

  /** A live block of a section, its place and its neighbour. */
  lemma FreeFacts(s: Section, k: nat)
    requires SectionOk(s) && k in Used(s.blocks)
    ensures k in s.blocks && !s.blocks[k].isFree && k !in s.freeList && Ascending(s.freeList) && Tiled(s.blocks, s.First(), s.End())
  {
  }

  /** The block at `k` is no longer among the live ones; the others are as before. */
  ghost predicate Removed(ss: seq<Section>, ss': seq<Section>, k: nat) {
    forall a: nat, n: nat :: Live(ss', a, n) <==> Live(ss, a, n) && a != k
  }

  lemma RemovedIntro(ss: seq<Section>, ss': seq<Section>, k: nat)
    requires forall a: nat, n: nat :: Live(ss', a, n) <==> Live(ss, a, n) && a != k
    ensures Removed(ss, ss', k)
  {
  }

  lemma LinkedHeap(ss: seq<Section>, used: int, t: Tally, i: nat, k: nat, j: nat, prev: nat)
    requires HeapOk(ss, used, t) && i < |ss| && k in Used(ss[i].blocks)
    requires PlaceOf(ss[i].freeList, k, j) && Before(ss[i].blocks, ss[i].First(), k, prev)
    ensures k in ss[i].blocks
    ensures var s := ss[i];
      var ss1, size := ss[i := FreedSection(s, k, j, prev)], s.blocks[k].size - HEADER;
      var joins := (if JoinsPrev(s.blocks, k, prev) then HEADER else 0) + (if JoinsNext(s.blocks, k) then HEADER else 0);
      && SectionsOk(ss1) && (forall n :: 0 <= n < |ss1| ==> ss1[n].size > 0) && Removed(ss, ss1, k)
      && TallyAll(ss1) == Tally(t.free + size + joins, t.metadata - joins, t.total)
  {
    hide SectionsOk, SectionOk, Used, InUse, TallyAll, TallyOf, PlaceOf, Before, JoinsPrev, JoinsNext, FreedSection;
    var s := ss[i];
    SectionAt(ss, i);
    FreeFacts(s, k);
    FreedTally(s, k, j, prev);
    var s' := FreedSection(s, k, j, prev);
    UpdateOk(ss, i, s');
    TallyUpdate(ss, i, s');
    LiveFreed(ss, i, s', k);
    RemovedIntro(ss, ss[i := s'], k);
  }

  lemma KeptRemoved(ss0: seq<Section>, ss: seq<Section>, k: nat)
    requires SectionsOk(ss) && (forall i :: 0 <= i < |ss| ==> ss[i].size > 0) && Removed(ss0, ss, k)
    ensures Removed(ss0, Kept(ss), k)
  {
    forall a: nat, n: nat ensures Live(Kept(ss), a, n) <==> Live(ss0, a, n) && a != k {
      hide SectionsOk, Kept;
      KeptLive(ss, a, n);
    }
    RemovedIntro(ss0, Kept(ss), k);
  }

  lemma KeptInUse(ss: seq<Section>, i: nat)
    requires SectionsOk(ss) && (forall i :: 0 <= i < |ss| ==> ss[i].size > 0) && i < |Kept(ss)|
    ensures Kept(ss)[i].size > 0 && InUse(Kept(ss)[i])
  {
    hide SectionOk, LooksUnused, Kept, InUse;
    KeptSome(ss);
    var m := Kept(ss);
    assert m[i] in m && m[i] in ss;
    var j :| 0 <= j < |ss| && ss[j] == m[i];
    UnusedTest(ss[j]);
  }

  /** What is left after the release is in order again. */
  lemma KeptHeap(ss0: seq<Section>, ss: seq<Section>, used: int, t: Tally, k: nat)
    requires SectionsOk(ss) && (forall i :: 0 <= i < |ss| ==> ss[i].size > 0) && Removed(ss0, ss, k)
    requires t == TallyAll(Kept(ss)) && used + t.free + t.metadata == t.total
    ensures HeapOk(Kept(ss), used, t) && Removed(ss0, Kept(ss), k)
  {
    hide SectionsOk, Kept, TallyAll, InUse, Removed;
    KeptRemoved(ss0, ss, k);
    KeptOk(ss);
    forall i: nat | i < |Kept(ss)| ensures Kept(ss)[i].size > 0 && InUse(Kept(ss)[i]) {
      KeptInUse(ss, i);
    }
  }

  /** Section `i` has lost its block `k`, and unused sections are gone. */
  ghost predicate FreedIn(ss: seq<Section>, ss': seq<Section>, i: nat, k: nat, s': Section) {
    && i < |ss| && SectionOk(s') && s'.start == ss[i].start && s'.size == ss[i].size && Used(s'.blocks) == Used(ss[i].blocks) - {k}
    && ss' == Kept(ss[i := s'])
  }

  /** What Free writes: headers of the section, then links between sections. */
  lemma FreedWrote(ss: seq<Section>, i: nat, s': Section, k: nat, w1: set<Place>, ss2: seq<Section>, w2: set<Place>)
    requires SectionsOk(ss) && i < |ss| && s'.start == ss[i].start && WroteOnlyIn(ss[i], s', w1) && PlacesIn(ss[i], w1)
    requires WroteOnly(ss[i := s'], ss2, w2) && SectionHeaders(ss[i := s'], w2) && Removed(ss, ss2, k)
    ensures Wrote(ss, ss2, w1 + w2)
  {
    hide SectionsOk, WroteOnlyIn, PlacesIn, WroteOnly, SectionHeaders, Headers, Misses, Live;
    WroteSection(ss, i, s', w1);
    WroteBoth(ss, ss[i := s'], ss2, w1, w2);
    assert ss[i := ss[i]] == ss;
    PlacesUpdated(ss, i, ss[i], w1);
    SectionHeadersOf(ss, i, s', w2);
    HeadersBoth(ss, w1, w2);
    HeadersMiss(ss, w1 + w2);
    FewerMiss(ss, ss2, w1 + w2);
  }

  /** Free of the block whose header is at `k`; `at` is its section and `w` the headers written. */
  method FreeBlock(h: State, k: nat, ghost at: nat) returns (h': State, ghost s': Section, ghost w: set<Place>)
    requires StateOk(h) && at < |h.sections| && k in Used(h.sections[at].blocks)
    ensures StateOk(h') && Removed(h.sections, h'.sections, k) && FreedIn(h.sections, h'.sections, at, k, s')
    ensures Wrote(h.sections, h'.sections, w)
  {
    hide SectionsOk, SectionOk, Used, InUse, TallyAll, PlaceOf, Before, JoinsPrev, JoinsNext, FreedSection, Removed, Kept, Ascending, Tiled;
    hide WroteOnlyIn, PlacesIn, WroteOnly, SectionHeaders, Wrote;
    var i := FindSection(h.sections, k, at);
    var s := h.sections[i];
    SectionAt(h.sections, i);
    FreeFacts(s, k);
    var j := FindPlace(s.freeList, k);
    ghost var prev := PreviousBlock(s.blocks, s.First(), s.End(), k);
    var linked, before, after;
    linked, before, after, w := Link(s, k, j, prev);
    LinkedHeap(h.sections, h.used, h.tally, i, k, j, prev);
    FreedTally(s, k, j, prev);
    s' := linked;
    var size := s.blocks[k].size - HEADER;
    var free, metadata := h.tally.free, h.tally.metadata;
    if before {
      metadata, free := metadata - HEADER, free + HEADER;
    }
    if after {
      metadata, free := metadata - HEADER, free + HEADER;
    }
    var ss1, t1 := h.sections[i := linked], Tally(free + size, metadata, h.tally.total);
    var ss2, t2;
    ghost var w2;
    ss2, t2, w2 := ReleaseUnused(ss1, t1);
    KeptHeap(h.sections, ss1, h.used - size, t2, k);
    FreedWrote(h.sections, i, linked, k, w, ss2, w2);
    w := w + w2;
    h' := State(ss2, h.used - size, t2);
  }

  // ---------- Free undoes Allocate ----------

  lemma {:induction false} UnchangedKept(ss: seq<Section>)
    requires SectionsOk(ss) && forall i :: 0 <= i < |ss| ==> ss[i].size > 0 && InUse(ss[i])
    ensures Kept(ss) == ss
  {
    forall i | 0 <= i < |ss| ensures !LooksUnused(ss[i]) {
      UnusedTest(ss[i]);
    }
    KeptAll(ss);
  }

  lemma UsedTakenBack(u: map<nat, nat>, k: nat, c: nat)
    requires k !in u
    ensures u[k := c] - {k} == u
  {
  }

  /** A block taken out of a section and freed again leaves the section as it was. */
  lemma SectionRestored(s: Section, j: nat, request: nat, s2: Section)
    requires SectionOk(s) && FitsAt(s, j, request) && Mult16(request)
    requires var s1 := TakenSection(s, j, request);
      SectionOk(s2) && s2.start == s1.start && s2.size == s1.size && Used(s2.blocks) == Used(s1.blocks) - {s.freeList[j]}
    ensures s2 == s
  {
    hide SectionOk, Used, TakenSection, TakenSize, TallyOf, Mult16;
    NotLive(s, j);
    TakenOk(s, j, request);
    var k := s.freeList[j];
    UsedTakenBack(Used(s.blocks), k, TakenSize(s.blocks[k].size, request));
    SectionDetermined(s2, s);
  }

  /** Freeing a block just taken from a free block of section `i`. */
  lemma RestoredFrom(ss: seq<Section>, used: int, t: Tally, i: nat, j: nat, request: nat, ss2: seq<Section>, s2: Section)
    requires HeapOk(ss, used, t) && i < |ss| && FitsAt(ss[i], j, request) && Mult16(request)
    requires FreedIn(ss[i := TakenSection(ss[i], j, request)], ss2, i, ss[i].freeList[j], s2)
    ensures ss2 == ss
  {
    hide SectionOk, Used, TakenSection, Mult16, InUse, TallyAll, FitsAt, Kept;
    SectionAt(ss, i);
    SectionRestored(ss[i], j, request, s2);
    assert ss[i := TakenSection(ss[i], j, request)][i := s2] == ss;
    UnchangedKept(ss);
  }

  /** Freeing the block for which a section was added. */
  lemma RestoredNew(ss: seq<Section>, used: int, t: Tally, start: nat, request: nat, ss1: seq<Section>, ss2: seq<Section>, s2: Section)
    requires HeapOk(ss, used, t) && Mult16(request) && Mult16(start) && Pushed(ss, ss1, request, start)
    requires FreedIn(ss1, ss2, 0, start + SECTION_HEADER, s2)
    ensures ss2 == ss
  {
    hide SectionOk, Used, TakenSection, Mult16, InUse, TallyAll, TallyOf, Kept, FitsAt, SectionSize;
    var whole := Whole(start, SectionSize(request) - SECTION_HEADER);
    WholeSize(start, request);
    SectionRestored(whole, 0, request, s2);
    assert ss1[0 := s2] == [whole] + ss;
    KeptPush(whole, ss);
    UnchangedKept(ss);
  }

  lemma KeptPush(s: Section, ss: seq<Section>)
    requires s == Whole(s.start, s.size)
    ensures Kept([s] + ss) == Kept(ss)
  {
    assert ([s] + ss)[1..] == ss && LooksUnused(s);
  }

  lemma LiveAligned(ss: seq<Section>, k: nat, n: nat)
    requires SectionsOk(ss) && Live(ss, k, n)
    ensures Mult16(k + HEADER) && n >= HEADER && exists i: nat :: i < |ss| && LiveIn(ss[i], k, n)
  {
    hide SectionOk, Used;
    var i :| 0 <= i < |ss| && LiveIn(ss[i], k, n);
    UsedWithin(ss[i], k);
  }

  lemma NewBlockLive(ss: seq<Section>, ss': seq<Section>, request: nat, k: nat) returns (n: nat)
    requires NewBlock(ss, ss', request, k) && SectionsOk(ss')
    ensures Live(ss', k, n) && HEADER + request <= n <= HEADER + request + 32 && Mult16(k + HEADER)
  {
    n :| HEADER + request <= n <= HEADER + request + 32 && Added(ss, ss', k, n);
    AddedLive(ss, ss', k, n);
    hide SectionsOk, Live, Added;
    LiveAligned(ss', k, n);
  }

  lemma AddedLive(ss: seq<Section>, ss': seq<Section>, k: nat, n: nat)
    requires Added(ss, ss', k, n)
    ensures Live(ss', k, n)
  {
    hide Live;
  }

  /** One allocation and the release of what it returned leave the heap as it was. */
  lemma Restored(ss: seq<Section>, used: int, t: Tally, request: nat, ss1: seq<Section>, k: nat, i: nat, ss2: seq<Section>, s2: Section)
    requires HeapOk(ss, used, t) && Mult16(request) && Allocated(ss, ss1, request, k) && SectionsOk(ss1) && Mult16(k + HEADER)
    requires i < |ss1| && k in Used(ss1[i].blocks) && FreedIn(ss1, ss2, i, k, s2)
    ensures ss2 == ss
  {
    hide SectionsOk, SectionOk, Used, TakenSection, Mult16, FreedIn, HeapOk, Pushed, NoneFits;
    if i0: nat, j0: nat :| FirstFit(ss, request, i0, j0) && k == ss[i0].freeList[j0] && ss1 == ss[i0 := TakenSection(ss[i0], j0, request)] {
      FirstFitFits(ss, request, i0, j0);
      RestoredOld(ss, used, t, request, ss1, k, i, ss2, s2, i0, j0);
    } else {
      PushedBlock(ss, ss1, request, k, i);
      RestoredNew(ss, used, t, k - SECTION_HEADER, request, ss1, ss2, s2);
    }
  }

  lemma RestoredOld(ss: seq<Section>, used: int, t: Tally, request: nat, ss1: seq<Section>, k: nat, i: nat, ss2: seq<Section>, s2: Section, i0: nat, j0: nat)
    requires HeapOk(ss, used, t) && Mult16(request) && SectionsOk(ss1) && i < |ss1| && k in Used(ss1[i].blocks) && FreedIn(ss1, ss2, i, k, s2)
    requires i0 < |ss| && FitsAt(ss[i0], j0, request) && k == ss[i0].freeList[j0] && ss1 == ss[i0 := TakenSection(ss[i0], j0, request)]
    ensures ss2 == ss
  {
    hide SectionsOk, SectionOk, Used, TakenSection, Mult16, FreedIn, FitsAt, HeapOk, TallyOf, TakenSize;
    HeapSectionAt(ss, used, t, i0);
    TakenOk(ss[i0], j0, request);
    OneSection(ss1, i, i0, k);
    RestoredFrom(ss, used, t, i0, j0, request, ss2, s2);
  }

  lemma HeapSectionAt(ss: seq<Section>, used: int, t: Tally, i: nat)
    requires HeapOk(ss, used, t) && i < |ss|
    ensures SectionOk(ss[i])
  {
    hide SectionOk;
  }

  lemma HeadersMult16(k: nat)
    requires Mult16(k + HEADER)
    ensures Mult16(k - SECTION_HEADER)
  {
  }

  lemma PushedBlock(ss: seq<Section>, ss1: seq<Section>, request: nat, k: nat, i: nat)
    requires SectionsOk(ss1) && k >= SECTION_HEADER && Pushed(ss, ss1, request, k - SECTION_HEADER) && i < |ss1| && k in Used(ss1[i].blocks)
    requires Mult16(k + HEADER) && Mult16(request)
    ensures i == 0 && Mult16(k - SECTION_HEADER)
  {
    hide SectionsOk, SectionOk, TakenSection, Mult16, SectionSize, Used, TallyOf, TakenSize;
    var whole := Whole(k - SECTION_HEADER, SectionSize(request) - SECTION_HEADER);
    HeadersMult16(k);
    WholeSize(k - SECTION_HEADER, request);
    TakenOk(whole, 0, request);
    OneSection(ss1, i, 0, k);
  }

  class HeapAllocator {
    var sections: seq<Section>
    var usedMemory: int
    var freeMemory: int
    var metadataMemory: int
    var totalMemory: int

    ghost function Now(): State
      reads this
    {
      State(sections, usedMemory, Tally(freeMemory, metadataMemory, totalMemory))
    }

    ghost predicate Valid()
      reads this
    {
      StateOk(Now())
    }

    constructor ()
      ensures Valid() && sections == []
    {
      EmptyHeap();
      hide HeapOk;
      sections := [];
      usedMemory, freeMemory, metadataMemory, totalMemory := 0, 0, 0, 0;
    }

    /**
     * Allocate: `given` is what the section allocator would return for the size of a section; 0 is the null pointer; `w` are
     * the headers written. The block holds the size asked for if and only if that is at most 2^64 - 16.
     */
    method Allocate(size: nat, given: Option<nat>) returns (ptr: nat, ghost w: set<Place>)
      requires Valid() && size < WORD
      requires given.Some? ==> Mult16(given.value) && Room(sections, given.value, SectionSize(Aligned16(size)))
      modifies this
      ensures Valid()
      ensures ptr == 0 ==> Now() == old(Now()) && given.None? && forall i :: 0 <= i < |sections| ==> NoneFits(sections[i], Aligned16(size))
      ensures ptr != 0 ==> ptr >= HEADER && NewBlock(old(sections), sections, Aligned16(size), ptr - HEADER)
      ensures ptr != 0 ==> Allocated(old(sections), sections, Aligned16(size), ptr - HEADER)
      ensures if ptr == 0 then w == {} else Wrote(old(sections), sections, w)
      ensures ptr != 0 && size <= WORD - 16 ==> Granted(old(sections), sections, size, ptr - HEADER)
    {
      hide HeapOk, SectionOk, NewBlock, Granted, TakenSection, Mult16, SectionSize, Aligned16, Room, FitsAt, NoneFits, Pushed, Wrote;
      var request := Aligned16(size);
      var h := State(sections, usedMemory, Tally(freeMemory, metadataMemory, totalMemory));
      HeapSections(h);
      var i, j := Search(sections, request);
      if j.Some? {
        FirstFitFits(sections, request, i, j.value);
        h, ptr, w := AllocateFrom(h, i, j.value, request);
      } else if given.Some? {
        h, ptr, w := AllocateNew(h, given.value, request);
      } else {
        return 0, {};
      }
      sections, usedMemory, freeMemory, metadataMemory, totalMemory := h.sections, h.used, h.tally.free, h.tally.metadata, h.tally.total;
      LargeEnough(old(sections), sections, size, ptr - HEADER);
    }

    /** Free: the null pointer is ignored, any other must be that of a live block. */
    method Free(ptr: nat, ghost n: nat) returns (ghost at: nat, ghost s': Section, ghost w: set<Place>)
      requires Valid() && (ptr == 0 || (ptr >= HEADER && Live(sections, ptr - HEADER, n)))
      modifies this
      ensures Valid()
      ensures ptr == 0 ==> Now() == old(Now())
      ensures ptr != 0 ==> Removed(old(sections), sections, ptr - HEADER)
      ensures ptr != 0 ==> at < |old(sections)| && ptr - HEADER in Used(old(sections)[at].blocks) && FreedIn(old(sections), sections, at, ptr - HEADER, s')
      ensures if ptr == 0 then w == {} else Wrote(old(sections), sections, w)
    {
      hide HeapOk, SectionOk, Used, Removed, FreedIn, Live, Wrote;
      at, s', w := 0, Section(0, 0, map[], []), {};
      if ptr != 0 {
        var k := ptr - HEADER;
        at := LiveWhere(sections, k, n);
        var h := State(sections, usedMemory, Tally(freeMemory, metadataMemory, totalMemory));
        h, s', w := FreeBlock(h, k, at);
        sections, usedMemory, freeMemory, metadataMemory, totalMemory := h.sections, h.used, h.tally.free, h.tally.metadata, h.tally.total;
      }
    }

    /** Freeing what Allocate returned gives back the section list, the free lists and all counters. */
    method AllocateThenFree(size: nat, given: Option<nat>) returns (ptr: nat)
      requires Valid() && size < WORD
      requires given.Some? ==> Mult16(given.value) && Room(sections, given.value, SectionSize(Aligned16(size)))
      modifies this
      ensures Now() == old(Now())
    {
      hide HeapOk, SectionOk, SectionsOk, NewBlock, Mult16, SectionSize, Room, NoneFits, Allocated, Live, FreedIn, Removed, Aligned16, Wrote;
      ghost var h := Now();
      ghost var w;
      ptr, w := Allocate(size, given);
      if ptr != 0 {
        ghost var h1 := Now();
        HeapSections(h1);
        ghost var n := NewBlockLive(h.sections, h1.sections, Aligned16(size), ptr - HEADER);
        ghost var at, s', w' := Free(ptr, n);
        Restored(h.sections, h.used, h.tally, Aligned16(size), h1.sections, ptr - HEADER, at, sections, s');
        SameCounters(h, Now());
      }
    }
  }

  /** After one allocation a request for 2^64 - 1 bytes is served, from a heap of 128 KiB. */
  method HugeRequest() returns (h: HeapAllocator, ptr: nat)
    ensures fresh(h) && h.Valid() && ptr != 0 && |h.sections| == 1 && SECTION_HEADER + h.sections[0].size == 131072
  {
    h := new HeapAllocator();
    hide HeapOk, SectionOk, NewBlock, Live, Wrote, Allocated, Aligned16, SectionSize, FitsAt;
    AlignedExact(16);
    AlignedExact(WORD - 1);
    ghost var w;
    var first;
    first, w := h.Allocate(16, Some(131072));
    OneSectionOnly(h.sections, first - HEADER);
    ghost var ss := h.sections;
    ptr, w := h.Allocate(WORD - 1, None);
    if ptr != 0 {
      SameSections(ss, h.sections, ptr - HEADER);
    }
  }

  lemma OneSectionOnly(ss: seq<Section>, k: nat)
    requires Allocated([], ss, 16, k)
    ensures |ss| == 1 && SECTION_HEADER + ss[0].size == 131072 && FitsAt(ss[0], 0, 0)
  {
    assert SectionSize(16) == 131072;
    var c := TakenSize(131040, 16);
    assert c == 32;
    assert AfterTake(map[k := Region(131040, true)], k, c) == map[k := Region(32, false), k + 32 := Region(131008, true)];
    assert ss[0].freeList == [k + 32];
  }

  lemma SameSections(ss: seq<Section>, ss': seq<Section>, k: nat)
    requires |ss| == 1 && FitsAt(ss[0], 0, 0) && Allocated(ss, ss', 0, k)
    ensures |ss'| == 1 && ss'[0].size == ss[0].size
  {
    hide FitsAt;
    assert !NoneFits(ss[0], 0);
  }

  /** The counters are determined by the sections. */
  lemma SameCounters(a: State, b: State)
    requires StateOk(a) && StateOk(b) && a.sections == b.sections
    ensures a == b
  {
  }

  lemma LiveWhere(ss: seq<Section>, k: nat, n: nat) returns (i: nat)
    requires Live(ss, k, n)
    ensures i < |ss| && k in Used(ss[i].blocks)
  {
    i :| 0 <= i < |ss| && LiveIn(ss[i], k, n);
  }

  lemma HeapSections(h: State)
    requires StateOk(h)
    ensures SectionsOk(h.sections)
  {
    hide SectionsOk;
  }

  lemma FirstFitFits(ss: seq<Section>, request: nat, i: nat, j: nat)
    requires FirstFit(ss, request, i, j)
    ensures i < |ss| && FitsAt(ss[i], j, request)
  {
  }
}
