/** The headers that kernel/src/Memory/Heap.cpp writes, and the payloads it leaves alone. */
module HeapWrites {
  import opened Basics
  import opened Regions
  import opened HeapBlocks
  import opened Heap

  /** Where a header is. */
  datatype Place = BlockHeader(at: nat) | SectionHeader(at: nat) {
    function Length(): nat { if BlockHeader? then HEADER else SECTION_HEADER }
  }

  /** What a header holds: a free block points to the next free block, a section to its first free block and the next section. */
  datatype Fields = BlockFields(block: Region, next: Option<nat>) | SectionFields(size: nat, firstBlock: Option<nat>, next: Option<nat>)

  function ItemAt(l: seq<nat>, i: nat): Option<nat> {
    if i < |l| then Some(l[i]) else None
  }

  ghost predicate LinkedTo(l: seq<nat>, b: nat, next: Option<nat>) {
    exists i: nat :: i < |l| && l[i] == b && next == ItemAt(l, i + 1)
  }

  /** The header of a block of `s`. */
  ghost predicate BlockHolds(s: Section, b: nat, f: Fields) {
    && b in s.blocks && f.BlockFields? && f.block == s.blocks[b]
    && (if s.blocks[b].isFree then LinkedTo(s.freeList, b, f.next) else f.next == None)
  }

  ghost predicate HoldsIn(s: Section, next: Option<nat>, p: Place, f: Fields) {
    match p
    case BlockHeader(b) => BlockHolds(s, b, f)
    case SectionHeader(a) => a == s.start && f == SectionFields(s.size, ItemAt(s.freeList, 0), next)
  }

  function NextSection(ss: seq<Section>, i: nat): Option<nat> {
    if i + 1 < |ss| then Some(ss[i + 1].start) else None
  }

  /** The header at `p` is part of the heap and holds `f`. */
  ghost predicate Stored(ss: seq<Section>, p: Place, f: Fields) {
    exists i: nat :: i < |ss| && HoldsIn(ss[i], NextSection(ss, i), p, f)
  }

  /** Every header outside `w` holds what it held. */
  ghost predicate WroteOnly(ss: seq<Section>, ss': seq<Section>, w: set<Place>) {
    forall p, f :: p !in w && Stored(ss', p, f) ==> Stored(ss, p, f)
  }

  ghost predicate PlaceIn(s: Section, p: Place) {
    match p
    case BlockHeader(b) => b in s.blocks
    case SectionHeader(a) => a == s.start
  }

  /** `w` are headers of the heap. */
  ghost predicate Headers(ss: seq<Section>, w: set<Place>) {
    forall p :: p in w ==> exists i: nat :: i < |ss| && PlaceIn(ss[i], p)
  }

  /** No byte of the headers `w` is in the payload of a live block. */
  ghost predicate Misses(ss: seq<Section>, w: set<Place>) {
    forall p, k: nat, n: nat :: p in w && Live(ss, k, n) ==> p.at + p.Length() <= k + HEADER || k + n <= p.at
  }

  /** From `ss` to `ss'` nothing outside the headers `w` is written, and they lie in no payload that is live before or after. */
  ghost predicate Wrote(ss: seq<Section>, ss': seq<Section>, w: set<Place>) {
    WroteOnly(ss, ss', w) && Misses(ss, w) && Misses(ss', w)
  }

  lemma HeadersMiss(ss: seq<Section>, w: set<Place>)
    requires SectionsOk(ss) && Headers(ss, w)
    ensures Misses(ss, w)
  {
    hide SectionsOk, Live;
    forall p, k: nat, n: nat | p in w && Live(ss, k, n) ensures p.at + p.Length() <= k + HEADER || k + n <= p.at {
      var i: nat :| i < |ss| && PlaceIn(ss[i], p);
      HeaderMisses(ss, i, p, k, n);
    }
  }

  lemma HeaderMisses(ss: seq<Section>, i: nat, p: Place, k: nat, n: nat)
    requires SectionsOk(ss) && i < |ss| && PlaceIn(ss[i], p) && Live(ss, k, n)
    ensures p.at + p.Length() <= k + HEADER || k + n <= p.at
  {
    hide SectionsOk, Live;
    if p.BlockHeader? {
      HeadersApart(ss, i, p.at, k, n);
    } else {
      SectionApart(ss, i, k, n);
    }
  }

  /** The fewer blocks are live, the fewer are to be missed. */
  lemma FewerMiss(ss: seq<Section>, ss': seq<Section>, w: set<Place>)
    requires Misses(ss, w) && forall k: nat, n: nat :: Live(ss', k, n) ==> Live(ss, k, n)
    ensures Misses(ss', w)
  {
    hide Live;
  }

  lemma WroteBoth(ss: seq<Section>, ss1: seq<Section>, ss2: seq<Section>, w1: set<Place>, w2: set<Place>)
    requires WroteOnly(ss, ss1, w1) && WroteOnly(ss1, ss2, w2)
    ensures WroteOnly(ss, ss2, w1 + w2)
  {
    hide Stored;
    forall p, f | p !in w1 + w2 && Stored(ss2, p, f) ensures Stored(ss, p, f) {
      assert Stored(ss1, p, f);
    }
  }

  // ---------- One section ----------

  ghost predicate WroteOnlyIn(s: Section, s': Section, w: set<Place>) {
    forall next, p, f :: p !in w && HoldsIn(s', next, p, f) ==> HoldsIn(s, next, p, f)
  }

  lemma WroteSection(ss: seq<Section>, i: nat, s': Section, w: set<Place>)
    requires i < |ss| && s'.start == ss[i].start && WroteOnlyIn(ss[i], s', w)
    ensures WroteOnly(ss, ss[i := s'], w)
  {
    hide HoldsIn;
    var ss' := ss[i := s'];
    forall p, f | p !in w && Stored(ss', p, f) ensures Stored(ss, p, f) {
      var m: nat :| m < |ss'| && HoldsIn(ss'[m], NextSection(ss', m), p, f);
      assert NextSection(ss', m) == NextSection(ss, m);
      assert HoldsIn(ss[m], NextSection(ss, m), p, f);
    }
  }

  ghost predicate PlacesIn(s: Section, w: set<Place>) {
    forall p :: p in w ==> PlaceIn(s, p)
  }

  lemma PlacesUpdated(ss: seq<Section>, i: nat, s': Section, w: set<Place>)
    requires i < |ss| && PlacesIn(s', w)
    ensures Headers(ss[i := s'], w)
  {
    hide PlaceIn;
    var ss' := ss[i := s'];
    assert forall p :: p in w ==> PlaceIn(ss'[i], p);
  }

  /** What points to the `j`th free block. */
  function PointsTo(s: Section, j: nat): Place {
    if 0 < j <= |s.freeList| then BlockHeader(s.freeList[j - 1]) else SectionHeader(s.start)
  }

  /** Only the blocks of `w` have changed, and only they or the section point elsewhere. */
  lemma WroteOnlyInIntro(s: Section, s': Section, w: set<Place>)
    requires s'.start == s.start && s'.size == s.size
    requires forall b :: b in s'.blocks && BlockHeader(b) !in w ==> b in s.blocks && s'.blocks[b] == s.blocks[b]
    requires forall b, next :: BlockHeader(b) !in w && LinkedTo(s'.freeList, b, next) ==> LinkedTo(s.freeList, b, next)
    requires SectionHeader(s.start) in w || ItemAt(s'.freeList, 0) == ItemAt(s.freeList, 0)
    ensures WroteOnlyIn(s, s', w)
  {
    hide LinkedTo;
  }

  // ---------- The free list ----------

  /** The list after a request: with the rest in the place of the block, or without it. */
  lemma TakenLinks(l: seq<nat>, j: nat, c: nat, size: nat, b: nat, next: Option<nat>)
    requires j < |l| && (c < size ==> b != l[j] + c) && (j > 0 ==> b != l[j - 1])
    requires LinkedTo(TakenList(l, j, c, size), b, next)
    ensures LinkedTo(l, b, next)
  {
    var l' := TakenList(l, j, c, size);
    var i: nat :| i < |l'| && l'[i] == b && next == ItemAt(l', i + 1);
    var i' := if c < size || i < j then i else i + 1;
    assert l[i'] == b && next == ItemAt(l, i' + 1);
  }

  /** The list after a block is linked at place `j`. */
  lemma FreedLinks(l: seq<nat>, k: nat, j: nat, before: bool, after: bool, b: nat, next: Option<nat>)
    requires j <= |l| && b != k && (j > 0 ==> b != l[j - 1]) && (before ==> j > 0) && (after ==> j < |l|)
    requires LinkedTo(FreedList(l, k, j, before, after), b, next)
    ensures LinkedTo(l, b, next)
  {
    var l' := FreedList(l, k, j, before, after);
    var i: nat :| i < |l'| && l'[i] == b && next == ItemAt(l', i + 1);
    var i' := if i < j || before != after then i else if before then i + 1 else i - 1;
    assert l[i'] == b && next == ItemAt(l, i' + 1);
  }

  // ---------- The list of sections ----------

  /** A section pushed in front: nothing is written but its own headers. */
  lemma WrotePushed(ss: seq<Section>, s: Section, w: set<Place>)
    requires forall p :: PlaceIn(s, p) ==> p in w
    ensures WroteOnly(ss, [s] + ss, w)
  {
    hide LinkedTo;
    var ss' := [s] + ss;
    forall p, f | p !in w && Stored(ss', p, f) ensures Stored(ss, p, f) {
      var m: nat :| m < |ss'| && HoldsIn(ss'[m], NextSection(ss', m), p, f);
      assert m == 0 ==> PlaceIn(s, p);
      assert NextSection(ss', m) == NextSection(ss, m - 1);
      assert HoldsIn(ss[m - 1], NextSection(ss, m - 1), p, f);
    }
  }

  /** What is written to unlink the section after `kept`. */
  function LastOf(kept: seq<Section>): set<Place> {
    if kept == [] then {} else {SectionHeader(kept[|kept| - 1].start)}
  }

  /** A section unlinked: only the section before it is written. */
  lemma WroteUnlinked(kept: seq<Section>, s: Section, rest: seq<Section>)
    ensures WroteOnly(kept + [s] + rest, kept + rest, LastOf(kept))
  {
    hide LinkedTo;
    var ss, ss' := kept + [s] + rest, kept + rest;
    forall p, f | p !in LastOf(kept) && Stored(ss', p, f) ensures Stored(ss, p, f) {
      var m: nat :| m < |ss'| && HoldsIn(ss'[m], NextSection(ss', m), p, f);
      var m' := if m < |kept| then m else m + 1;
      assert ss[m'] == ss'[m];
      if m != |kept| - 1 {
        assert NextSection(ss, m') == NextSection(ss', m);
      }
      assert HoldsIn(ss[m'], NextSection(ss, m'), p, f);
    }
  }

  /** `w` are headers of sections of the heap. */
  ghost predicate SectionHeaders(ss: seq<Section>, w: set<Place>) {
    forall p :: p in w ==> p.SectionHeader? && exists i: nat :: i < |ss| && ss[i].start == p.at
  }

  lemma SectionHeadersOf(ss: seq<Section>, i: nat, s': Section, w: set<Place>)
    requires i < |ss| && s'.start == ss[i].start && SectionHeaders(ss[i := s'], w)
    ensures Headers(ss, w)
  {
    var ss' := ss[i := s'];
    forall p | p in w ensures exists m: nat :: m < |ss| && PlaceIn(ss[m], p) {
      var m: nat :| m < |ss'| && ss'[m].start == p.at;
      assert PlaceIn(ss[m], p);
    }
  }

  lemma HeadersBoth(ss: seq<Section>, w1: set<Place>, w2: set<Place>)
    requires Headers(ss, w1) && Headers(ss, w2)
    ensures Headers(ss, w1 + w2)
  {
    hide PlaceIn;
  }

  lemma LastOfKept(ss: seq<Section>, kept: seq<Section>, w: set<Place>)
    requires SectionHeaders(ss, w) && forall s :: s in kept ==> s in ss
    ensures SectionHeaders(ss, w + LastOf(kept))
  {
    if kept != [] {
      var s := kept[|kept| - 1];
      assert s in kept;
      var i: nat :| i < |ss| && ss[i] == s;
      assert ss[i].start == s.start;
    }
  }
}
