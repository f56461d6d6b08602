/** kernel/src/Memory/Heap.cpp: the first-fit heap over a list of sections. */
module Heap {
  import opened Regions
  import opened RegionAllocator
  import opened HeapBlocks

  const MIN_SECTION: nat := 131072

  // ---------- What the counters count ----------

  datatype Tally = Tally(free: int, metadata: int, total: int)

  function Add(a: Tally, b: Tally): Tally {
    Tally(a.free + b.free, a.metadata + b.metadata, a.total + b.total)
  }

  /** The bytes of free blocks without their headers, the headers, and everything. */
  ghost function TallyOf(s: Section): Tally {
    Tally(|FreeSet(s.blocks, s.First(), s.End())| - HEADER * |s.freeList|, SECTION_HEADER + HEADER * |s.blocks|, SECTION_HEADER + s.size)
  }

  ghost function TallyAll(ss: seq<Section>): Tally {
    if ss == [] then Tally(0, 0, 0) else Add(TallyOf(ss[0]), TallyAll(ss[1..]))
  }

  lemma {:induction false} TallyUpdate(ss: seq<Section>, i: nat, s: Section)
    requires i < |ss|
    ensures Add(TallyAll(ss[i := s]), TallyOf(ss[i])) == Add(TallyAll(ss), TallyOf(s))
    decreases |ss|
  {
    hide TallyOf;
    if i > 0 {
      assert ss[i := s][1..] == ss[1..][i - 1 := s];
      TallyUpdate(ss[1..], i - 1, s);
    } else {
      assert ss[i := s][1..] == ss[1..];
    }
  }

  // ---------- The whole heap ----------

  ghost predicate Apart(a: Section, b: Section) {
    a.End() <= b.start || b.End() <= a.start
  }

  /** Some block of the section is in use. */
  ghost predicate InUse(s: Section) {
    exists k :: k in Used(s.blocks)
  }

  ghost predicate SectionsOk(ss: seq<Section>) {
    && (forall i :: 0 <= i < |ss| ==> SectionOk(ss[i]))
    && (forall i, j :: 0 <= i < j < |ss| ==> Apart(ss[i], ss[j]))
  }

  ghost predicate LiveIn(s: Section, k: nat, n: nat) {
    k in Used(s.blocks) && Used(s.blocks)[k] == n
  }

  /** The block at `k` takes `n` bytes, header included, and is in use. */
  ghost predicate Live(ss: seq<Section>, k: nat, n: nat) {
    exists i :: 0 <= i < |ss| && LiveIn(ss[i], k, n)
  }

  /** The live blocks lie apart: the payload of one meets neither the payload nor the header of another. */
  lemma LiveApart(ss: seq<Section>, k: nat, n: nat, k': nat, n': nat)
    requires SectionsOk(ss) && Live(ss, k, n) && Live(ss, k', n') && k != k'
    ensures k + n <= k' || k' + n' <= k
    ensures Mult16(k + HEADER) && n >= HEADER
  {
    var i :| 0 <= i < |ss| && LiveIn(ss[i], k, n);
    var j :| 0 <= j < |ss| && LiveIn(ss[j], k', n');
    hide SectionOk, Mult16, Used;
    UsedWithin(ss[i], k);
    UsedWithin(ss[j], k');
    if i == j {
      BlocksApart(ss[i], k, k');
    }
    assert i < j ==> Apart(ss[i], ss[j]);
    assert j < i ==> Apart(ss[j], ss[i]);
  }

  /** The header of a block does not lie in the payload of a live block. */
  lemma HeadersApart(ss: seq<Section>, i: nat, b: nat, k: nat, n: nat)
    requires SectionsOk(ss) && i < |ss| && b in ss[i].blocks && Live(ss, k, n)
    ensures b + HEADER <= k + HEADER || k + n <= b
  {
    var j :| 0 <= j < |ss| && LiveIn(ss[j], k, n);
    SectionTest(ss[i], b);
    hide SectionOk, Mult16, Used;
    UsedWithin(ss[j], k);
    if i == j && b != k {
      BlocksApart(ss[i], b, k);
      BlockHasHeader(ss[i], b);
    }
    assert i < j ==> Apart(ss[i], ss[j]);
    assert j < i ==> Apart(ss[j], ss[i]);
    BlockHasHeader(ss[i], b);
  }

  /** Nor does the header of a section. */
  lemma SectionApart(ss: seq<Section>, i: nat, k: nat, n: nat)
    requires SectionsOk(ss) && i < |ss| && Live(ss, k, n)
    ensures ss[i].First() <= k + HEADER || k + n <= ss[i].start
  {
    var j :| 0 <= j < |ss| && LiveIn(ss[j], k, n);
    hide SectionOk, Mult16, Used;
    UsedWithin(ss[j], k);
    assert i < j ==> Apart(ss[i], ss[j]);
    assert j < i ==> Apart(ss[j], ss[i]);
  }

  lemma BlockHasHeader(s: Section, b: nat)
    requires SectionOk(s) && b in s.blocks
    ensures s.blocks[b].size >= HEADER && s.First() <= b && b + s.blocks[b].size <= s.End()
  {
    WithinEnd(s.blocks, s.First(), s.End(), b);
  }

  lemma UsedWithin(s: Section, k: nat)
    requires SectionOk(s) && k in Used(s.blocks)
    ensures k in s.blocks && !s.blocks[k].isFree && Used(s.blocks)[k] == s.blocks[k].size
    ensures s.First() <= k && k + s.blocks[k].size <= s.End() && Mult16(k + HEADER) && s.blocks[k].size >= HEADER
  {
    assert Sized(s.blocks) && Mult16(HEADER);
    hide Mult16, Coalesced, LastHolds32, FreeOf;
    Mult16Sum(k, HEADER);
    WithinEnd(s.blocks, s.First(), s.End(), k);
  }

  lemma BlocksApart(s: Section, k: nat, k': nat)
    requires SectionOk(s) && k in s.blocks && k' in s.blocks && k != k'
    ensures k + s.blocks[k].size <= k' || k' + s.blocks[k'].size <= k
  {
  }

  /** Free's test of the section stops 32 bytes short of its end; the last block is large enough for that. */
  lemma SectionTest(s: Section, k: nat)
    requires SectionOk(s) && k in s.blocks
    ensures s.First() <= k < s.start + s.size
  {
    WithinEnd(s.blocks, s.First(), s.End(), k);
    var n := s.blocks[k].size;
    assert n >= HEADER && (k + n == s.End() ==> n >= HEADER + 32);
    if k + n < s.End() {
      NotLast(s, k);
    }
  }

  /** A block that is not the last one ends at least 48 bytes before the end. */
  lemma {:induction false} NotLast(s: Section, k: nat)
    requires SectionOk(s) && k in s.blocks && k + s.blocks[k].size < s.End()
    ensures k + s.blocks[k].size + HEADER + 32 <= s.End()
    decreases s.End() - k
  {
    var q := End(s.blocks, k);
    assert q in s.blocks;
    WithinEnd(s.blocks, s.First(), s.End(), q);
    Positive(s.blocks, s.First(), s.End(), k);
    if q + s.blocks[q].size < s.End() {
      NotLast(s, q);
    }
  }

  /** The geometry of a section and its live blocks determine the rest of it. */
  lemma SectionDetermined(s: Section, s': Section)
    requires SectionOk(s) && SectionOk(s') && s.start == s'.start && s.size == s'.size && Used(s.blocks) == Used(s'.blocks)
    ensures s == s'
  {
    hide Used, Tiled, Coalesced, Sized, LastHolds32;
    Canonical(s.blocks, s'.blocks, s.First(), s.End());
    SortedUnique(s.freeList, s'.freeList);
  }

  // ---------- Sections without live blocks ----------

  /** The test with which Free recognises such a section. */
  predicate LooksUnused(s: Section) {
    |s.freeList| == 1 && s.freeList[0] in s.blocks && s.blocks[s.freeList[0]].size == s.size
  }

  lemma UnusedTest(s: Section)
    requires SectionOk(s) && s.size > 0
    ensures LooksUnused(s) <==> !InUse(s)
    ensures LooksUnused(s) ==> TallyOf(s) == Tally(s.size - HEADER, SECTION_HEADER + HEADER, s.size + SECTION_HEADER)
  {
    if LooksUnused(s) {
      OneBlock(s);
    } else if !InUse(s) {
      AllFreeOne(s);
    }
  }

  lemma OneBlock(s: Section)
    requires SectionOk(s) && LooksUnused(s) && s.size > 0
    ensures !InUse(s) && TallyOf(s) == Tally(s.size - HEADER, SECTION_HEADER + HEADER, s.size + SECTION_HEADER)
  {
    var a, lo := s.freeList[0], s.First();
    WithinEnd(s.blocks, lo, s.End(), a);
    assert a == lo && a in s.freeList;
    forall k | k in s.blocks ensures k == a {
      WithinEnd(s.blocks, lo, s.End(), k);
      Positive(s.blocks, lo, s.End(), k);
      if k != a {
        BlocksApart(s, a, k);
      }
    }
    assert s.blocks.Keys == {a};
    forall p | lo <= p < s.End() ensures PageIn(s.blocks, p, true) {
      PageFlag(s.blocks, lo, s.End(), p, a);
    }
    assert FreeSet(s.blocks, lo, s.End()) == Span(lo, s.size);
  }

  lemma AllFreeOne(s: Section)
    requires SectionOk(s) && !InUse(s) && s.size > 0
    ensures LooksUnused(s)
  {
    var lo, l := s.First(), s.freeList;
    assert forall k :: k in s.blocks ==> s.blocks[k].isFree || k in Used(s.blocks);
    assert lo in s.blocks && lo in l;
    WithinEnd(s.blocks, lo, s.End(), lo);
    assert End(s.blocks, lo) !in s.blocks;
    forall a | a in l ensures a == lo {
      WithinEnd(s.blocks, lo, s.End(), a);
      Positive(s.blocks, lo, s.End(), a);
      if a != lo {
        BlocksApart(s, lo, a);
      }
    }
    SortedUnique(l, [lo]);
  }

  // ---------- Updating one section ----------

  /** Section `i` becomes `s`, in the same place. */
  lemma UpdateOk(ss: seq<Section>, i: nat, s: Section)
    requires SectionsOk(ss) && i < |ss| && SectionOk(s) && s.start == ss[i].start && s.size == ss[i].size
    ensures SectionsOk(ss[i := s])
  {
    hide SectionOk;
  }

  /** What changes in one section changes in the heap. */
  lemma LiveUpdate(ss: seq<Section>, i: nat, s: Section, a: nat, n: nat)
    requires i < |ss|
    ensures Live(ss[i := s], a, n) <==> LiveIn(s, a, n) || exists j :: 0 <= j < |ss| && j != i && LiveIn(ss[j], a, n)
    ensures Live(ss, a, n) <==> LiveIn(ss[i], a, n) || exists j :: 0 <= j < |ss| && j != i && LiveIn(ss[j], a, n)
  {
    hide LiveIn;
    var ss' := ss[i := s];
    if LiveIn(s, a, n) {
      assert LiveIn(ss'[i], a, n);
    }
    if j :| 0 <= j < |ss| && j != i && LiveIn(ss[j], a, n) {
      assert LiveIn(ss'[j], a, n);
    }
  }

  lemma LiveTaken(ss: seq<Section>, i: nat, s: Section, k: nat, c: nat)
    requires i < |ss| && k !in Used(ss[i].blocks) && Used(s.blocks) == Used(ss[i].blocks)[k := c]
    ensures forall a: nat, n: nat :: Live(ss[i := s], a, n) <==> Live(ss, a, n) || (a == k && n == c)
  {
    hide Live, Used;
    forall a: nat, n: nat ensures Live(ss[i := s], a, n) <==> Live(ss, a, n) || (a == k && n == c) {
      LiveUpdate(ss, i, s, a, n);
    }
  }

  lemma LiveFreed(ss: seq<Section>, i: nat, s: Section, k: nat)
    requires SectionsOk(ss) && i < |ss| && k in Used(ss[i].blocks) && Used(s.blocks) == Used(ss[i].blocks) - {k}
    ensures forall a: nat, n: nat :: Live(ss[i := s], a, n) <==> Live(ss, a, n) && a != k
  {
    hide Live, Used, SectionsOk;
    forall a: nat, n: nat ensures Live(ss[i := s], a, n) <==> Live(ss, a, n) && a != k {
      LiveUpdate(ss, i, s, a, n);
      if j :| 0 <= j < |ss| && j != i && LiveIn(ss[j], k, n) {
        OneSection(ss, i, j, k);
      }
    }
  }

  /** A block lies in one section only. */
  lemma OneSection(ss: seq<Section>, i: nat, j: nat, k: nat)
    requires SectionsOk(ss) && i < |ss| && j < |ss| && k in Used(ss[i].blocks) && k in Used(ss[j].blocks)
    ensures i == j
  {
    hide Used, SectionOk;
    UsedWithin(ss[i], k);
    UsedWithin(ss[j], k);
    assert i < j ==> Apart(ss[i], ss[j]);
    assert j < i ==> Apart(ss[j], ss[i]);
  }

  // ---------- The sections Free keeps ----------

  function Kept(ss: seq<Section>): seq<Section> {
    if ss == [] then [] else (if LooksUnused(ss[0]) then [] else [ss[0]]) + Kept(ss[1..])
  }

  lemma {:induction false} KeptAll(ss: seq<Section>)
    requires forall i :: 0 <= i < |ss| ==> !LooksUnused(ss[i])
    ensures Kept(ss) == ss
    decreases |ss|
  {
    if ss != [] {
      KeptAll(ss[1..]);
    }
  }

  lemma {:induction false} KeptSome(ss: seq<Section>)
    ensures forall s :: s in Kept(ss) <==> s in ss && !LooksUnused(s)
    decreases |ss|
  {
    if ss != [] {
      KeptSome(ss[1..]);
      assert ss == [ss[0]] + ss[1..];
    }
  }

  lemma {:induction false} KeptOk(ss: seq<Section>)
    requires SectionsOk(ss)
    ensures SectionsOk(Kept(ss))
    decreases |ss|
  {
    hide SectionOk, Apart;
    if ss != [] {
      KeptOk(ss[1..]);
      KeptSome(ss[1..]);
      var m := Kept(ss[1..]);
      forall j | 0 <= j < |m| ensures Apart(ss[0], m[j]) {
        assert m[j] in m && m[j] in ss[1..];
        var i :| 0 <= i < |ss| - 1 && ss[1..][i] == m[j];
        assert Apart(ss[0], ss[i + 1]);
      }
    }
  }

  lemma KeptLive(ss: seq<Section>, k: nat, n: nat)
    requires SectionsOk(ss) && forall i :: 0 <= i < |ss| ==> ss[i].size > 0
    ensures Live(Kept(ss), k, n) <==> Live(ss, k, n)
  {
    hide SectionOk, LiveIn, LooksUnused, Kept;
    KeptSome(ss);
    var m := Kept(ss);
    if i :| 0 <= i < |ss| && LiveIn(ss[i], k, n) {
      LiveKept(ss[i], k, n);
      assert ss[i] in m;
      var j :| 0 <= j < |m| && m[j] == ss[i];
      assert LiveIn(m[j], k, n);
    }
    if j :| 0 <= j < |m| && LiveIn(m[j], k, n) {
      assert m[j] in ss;
      var i :| 0 <= i < |ss| && ss[i] == m[j];
      assert LiveIn(ss[i], k, n);
    }
  }

  lemma LiveKept(s: Section, k: nat, n: nat)
    requires SectionOk(s) && s.size > 0 && LiveIn(s, k, n)
    ensures !LooksUnused(s)
  {
    UnusedTest(s);
  }
}
