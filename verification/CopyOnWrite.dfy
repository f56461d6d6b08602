/** kernel/src/Memory/VMM.cpp: VMM::Fork, VMM::HandlePageFault and VMM::Delete for private anonymous entries. */
module CopyOnWrite {
  import opened Basics
  import opened PrivateMemory

  // A slot of an anon map is named by its address space and page. What the model is compared with is `Now`: the private
  // memories the address spaces believe they have, in which nothing is shared.

  /** The flags of a map entry, kept with each of its slots.  The entry is private. */
  datatype Flags = Flags(prot: Prot, zero: bool, needsCopy: bool)

  /** A slot of an anon map; `anon` 0 is the null pointer. */
  datatype Slot = Slot(anon: nat, flags: Flags)

  datatype Anon = Anon(refCount: nat, frame: nat)

  /** A present page table entry. */
  datatype Pte = Pte(frame: nat, write: bool, execute: bool)

  /** The slots that point at an anon. */
  function Refs(slots: map<Key, Slot>, a: nat): set<Key> {
    set k | k in slots && slots[k].anon == a
  }

  /** What the address space of a slot reads there: the frame of its anon, or zeroes before the first touch.
      None stands for a page of an entry that is not zeroed and has not been touched. */
  function Content(slot: Slot, anons: map<nat, Anon>, memory: map<nat, Page>): Option<Page> {
    if slot.anon != 0 then
      if slot.anon in anons && anons[slot.anon].frame in memory then Some(memory[anons[slot.anon].frame]) else None
    else if slot.flags.zero then Some(ZeroPage()) else None
  }

  /** The private memories the address spaces believe they have. */
  function FlatOf(slots: map<Key, Slot>, anons: map<nat, Anon>, memory: map<nat, Page>): map<Key, Option<Page>> {
    map k | k in slots :: Content(slots[k], anons, memory)
  }

  function RefCount(anons: map<nat, Anon>, a: nat): nat {
    if a in anons then anons[a].refCount else 0
  }

  /** The reference count of an anon is the number of slots that point at it; one that is not live has none. */
  ghost predicate Counted(slots: map<Key, Slot>, anons: map<nat, Anon>) {
    && (forall a :: a != 0 ==> RefCount(anons, a) == |Refs(slots, a)|)
    && (forall a :: a in anons ==> a != 0 && anons[a].refCount > 0)
  }

  /** Every live anon has a frame of its own, and no other frame is allocated. */
  ghost predicate Framed(anons: map<nat, Anon>, memory: map<nat, Page>) {
    && (forall a :: a in anons ==> anons[a].frame != 0 && anons[a].frame in memory)
    && (forall a, b :: a in anons && b in anons && a != b ==> anons[a].frame != anons[b].frame)
    && (forall f :: f in memory ==> exists a :: a in anons && anons[a].frame == f)
  }

  /** A page table entry leads to the frame of its slot, and is writable only if no other slot shares it. */
  ghost predicate MappingSafe(k: Key, pte: Pte, slots: map<Key, Slot>, anons: map<nat, Anon>) {
    && k in slots && slots[k].anon in anons && pte.frame == anons[slots[k].anon].frame
    && slots[k].flags.prot.read
    && (pte.write ==> anons[slots[k].anon].refCount == 1 && slots[k].flags.prot.write)
    && (pte.execute <==> slots[k].flags.prot.execute)
  }

  /** What every operation keeps. */
  ghost predicate Inv(slots: map<Key, Slot>, ptes: map<Key, Pte>, anons: map<nat, Anon>, memory: map<nat, Page>) {
    && Counted(slots, anons) && Framed(anons, memory)
    && forall k :: k in ptes ==> MappingSafe(k, ptes[k], slots, anons)
  }

  function ProtsOf(slots: map<Key, Slot>): map<Key, Prot> {
    map k | k in slots :: slots[k].flags.prot
  }

  // ---------- The physical memory manager ----------

  /** A call of PMM::AllocatePage that returned a frame, or of PMM::FreePage. */
  datatype Call = Took(frame: nat) | Gave(frame: nat)

  /** The frames taken and not given back. */
  ghost function Held(log: seq<Call>): set<nat> {
    if log == [] then {}
    else match log[|log| - 1]
      case Took(f) => Held(log[..|log| - 1]) + {f}
      case Gave(f) => Held(log[..|log| - 1]) - {f}
  }

  /** No frame is given back that is not held: each one taken is given back at most once. */
  ghost predicate Legal(log: seq<Call>) {
    log != [] ==>
      && Legal(log[..|log| - 1])
      && match log[|log| - 1]
         case Took(f) => f !in Held(log[..|log| - 1])
         case Gave(f) => f in Held(log[..|log| - 1])
  }

  lemma {:induction false} LegalPrefix(log: seq<Call>, n: nat)
    requires Legal(log) && n <= |log|
    ensures Legal(log[..n])
    decreases |log|
  {
    if n < |log| {
      LegalPrefix(log[..|log| - 1], n);
      assert log[..|log| - 1][..n] == log[..n];
    } else {
      assert log[..n] == log;
    }
  }

  lemma {:induction false} NotTaken(log: seq<Call>, i: nat, j: nat, f: nat)
    requires i <= j <= |log| && f !in Held(log[..i]) && forall m :: i <= m < j ==> log[m] != Took(f)
    ensures f !in Held(log[..j])
    decreases j
  {
    if i < j {
      NotTaken(log, i, j - 1, f);
      assert log[..j][..j - 1] == log[..j - 1];
    }
  }

  /** Between two times a frame is given back it was taken. */
  lemma GivenOnce(log: seq<Call>, i: nat, j: nat, f: nat)
    requires Legal(log) && i < j < |log| && log[i] == log[j] == Gave(f)
    ensures exists m :: i < m < j && log[m] == Took(f)
  {
    assert log[..i + 1][..i] == log[..i] && log[..j + 1][..j] == log[..j];
    LegalPrefix(log, j + 1);
    if forall m :: i < m < j ==> log[m] != Took(f) {
      NotTaken(log, i + 1, j, f);
    }
  }

  /** The calls are legal, and what is held are the frames of anons. */
  ghost predicate Ledger(log: seq<Call>, memory: map<nat, Page>) {
    Legal(log) && Held(log) == memory.Keys
  }

  lemma LedgerTook(log: seq<Call>, memory: map<nat, Page>, f: nat, page: Page)
    requires Ledger(log, memory) && f !in memory
    ensures Ledger(log + [Took(f)], memory[f := page])
  {
    var log' := log + [Took(f)];
    assert log'[..|log'| - 1] == log;
  }

  lemma LedgerGave(log: seq<Call>, memory: map<nat, Page>, f: nat)
    requires Ledger(log, memory) && f in memory
    ensures Ledger(log + [Gave(f)], memory - {f})
  {
    var log' := log + [Gave(f)];
    assert log'[..|log'| - 1] == log;
  }

  lemma LedgerBack(log: seq<Call>, memory: map<nat, Page>, f: nat)
    requires Ledger(log, memory) && f !in memory
    ensures Ledger(log + [Took(f)] + [Gave(f)], memory)
  {
    LedgerTook(log, memory, f, ZeroPage());
    LedgerGave(log + [Took(f)], memory[f := ZeroPage()], f);
    assert memory[f := ZeroPage()] - {f} == memory;
  }

  /** A frame is held exactly as long as some slot reads it. */
  lemma LiveFrames(slots: map<Key, Slot>, anons: map<nat, Anon>, memory: map<nat, Page>, f: nat)
    requires Counted(slots, anons) && Framed(anons, memory)
    ensures f in memory <==> exists j :: j in slots && slots[j].anon in anons && anons[slots[j].anon].frame == f
  {
    if f in memory {
      var a :| a in anons && anons[a].frame == f;
      assert |Refs(slots, a)| == RefCount(anons, a) > 0;
      var j :| j in Refs(slots, a);
    }
  }

  // ---------- Counting references ----------

  /** Pointing the slot `k` at `a`, from wherever it pointed before, moves one reference. */
  lemma RefsMoved(slots: map<Key, Slot>, k: Key, slot: Slot, a: nat)
    ensures Refs(slots[k := slot], a) == if slot.anon == a then Refs(slots, a) + {k} else Refs(slots, a) - {k}
    ensures |Refs(slots[k := slot], a)| == |Refs(slots, a)|
      - (if k in slots && slots[k].anon == a then 1 else 0) + (if slot.anon == a then 1 else 0)
  {
    var before, after := Refs(slots, a), Refs(slots[k := slot], a);
    assert after == if slot.anon == a then before + {k} else before - {k};
    assert k in before <==> k in slots && slots[k].anon == a;
  }

  lemma RefsRemoved(slots: map<Key, Slot>, k: Key, a: nat)
    requires k in slots
    ensures Refs(slots - {k}, a) == Refs(slots, a) - {k}
    ensures |Refs(slots - {k}, a)| == |Refs(slots, a)| - (if slots[k].anon == a then 1 else 0)
  {
    assert Refs(slots - {k}, a) == Refs(slots, a) - {k};
    assert k in Refs(slots, a) <==> slots[k].anon == a;
  }

  lemma SlotLive(slots: map<Key, Slot>, anons: map<nat, Anon>, k: Key)
    requires Counted(slots, anons) && k in slots && slots[k].anon != 0
    ensures slots[k].anon in anons
  {
    assert k in Refs(slots, slots[k].anon);
  }

  /** An anon with one reference is read through that slot only. */
  lemma OneReference(slots: map<Key, Slot>, anons: map<nat, Anon>, k: Key, j: Key)
    requires Counted(slots, anons) && k in slots && j in slots && slots[k].anon == slots[j].anon != 0
    requires RefCount(anons, slots[k].anon) == 1
    ensures j == k
  {
    var refs := Refs(slots, slots[k].anon);
    assert j in refs && k in refs && |refs| == 1;
    assert |refs - {k}| == 0;
  }

  // ---------- The four ways slots, anons and frames change ----------

  /** The slot `k` gives up its anon, if it has one, for the live or new anon `a`. */
  lemma CountMoved(slots: map<Key, Slot>, anons: map<nat, Anon>, anons': map<nat, Anon>, k: Key, slot: Slot)
    requires Counted(slots, anons)
    requires forall b :: b != 0 ==>
      RefCount(anons', b) == RefCount(anons, b)
        - (if k in slots && slots[k].anon == b then 1 else 0) + (if slot.anon == b then 1 else 0)
    requires forall b :: b in anons' ==> b != 0 && anons'[b].refCount > 0
    ensures Counted(slots[k := slot], anons')
  {
    forall b | b != 0 ensures RefCount(anons', b) == |Refs(slots[k := slot], b)| {
      RefsMoved(slots, k, slot, b);
    }
  }

  lemma CountDropped(slots: map<Key, Slot>, anons: map<nat, Anon>, anons': map<nat, Anon>, k: Key)
    requires Counted(slots, anons) && k in slots
    requires forall b :: b != 0 ==> RefCount(anons', b) == RefCount(anons, b) - (if slots[k].anon == b then 1 else 0)
    requires forall b :: b in anons' ==> b != 0 && anons'[b].refCount > 0
    ensures Counted(slots - {k}, anons')
  {
    forall b | b != 0 ensures RefCount(anons', b) == |Refs(slots - {k}, b)| {
      RefsRemoved(slots, k, b);
    }
  }

  lemma FramedNew(anons: map<nat, Anon>, memory: map<nat, Page>, a: nat, f: nat, page: Page)
    requires Framed(anons, memory) && a !in anons && f != 0 && f !in memory
    ensures Framed(anons[a := Anon(1, f)], memory[f := page])
  {
    var anons', memory' := anons[a := Anon(1, f)], memory[f := page];
    forall g | g in memory' ensures exists b :: b in anons' && anons'[b].frame == g {
      if g == f {
        assert anons'[a].frame == g;
      } else {
        var b :| b in anons && anons[b].frame == g;
        assert anons'[b].frame == g;
      }
    }
  }

  lemma FramedCount(anons: map<nat, Anon>, memory: map<nat, Page>, a: nat, n: nat)
    requires Framed(anons, memory) && a in anons
    ensures Framed(anons[a := anons[a].(refCount := n)], memory)
  {
    var anons' := anons[a := anons[a].(refCount := n)];
    forall g | g in memory ensures exists b :: b in anons' && anons'[b].frame == g {
      var b :| b in anons && anons[b].frame == g;
      assert anons'[b].frame == g;
    }
  }

  lemma FramedFreed(anons: map<nat, Anon>, memory: map<nat, Page>, a: nat)
    requires Framed(anons, memory) && a in anons
    ensures Framed(anons - {a}, memory - {anons[a].frame})
  {
    var anons', memory' := anons - {a}, memory - {anons[a].frame};
    forall g | g in memory' ensures exists b :: b in anons' && anons'[b].frame == g {
      var b :| b in anons && anons[b].frame == g;
      assert b in anons' && anons'[b].frame == g;
    }
  }

  /** A new anon with a frame of its own fills an empty slot. */
  lemma Touch(slots: map<Key, Slot>, ptes: map<Key, Pte>, anons: map<nat, Anon>, memory: map<nat, Page>, k: Key, a: nat, f: nat, page: Page)
    requires Inv(slots, ptes, anons, memory) && k in slots && slots[k].anon == 0
    requires a != 0 && a !in anons && f != 0 && f !in memory
    ensures var slots', anons', memory' := slots[k := slots[k].(anon := a)], anons[a := Anon(1, f)], memory[f := page];
      && Inv(slots', ptes, anons', memory') && k !in ptes
      && FlatOf(slots', anons', memory') == FlatOf(slots, anons, memory)[k := Some(page)]
  {
    var slot, anons' := slots[k].(anon := a), anons[a := Anon(1, f)];
    CountMoved(slots, anons, anons', k, slot);
    FramedNew(anons, memory, a, f, page);
    forall j | j in slots && slots[j].anon != 0 ensures slots[j].anon in anons {
      SlotLive(slots, anons, j);
    }
    assert k !in ptes;
  }

  lemma CopyFlat(slots: map<Key, Slot>, anons: map<nat, Anon>, anons': map<nat, Anon>, memory: map<nat, Page>, k: Key, a: nat, f: nat)
    requires Counted(slots, anons) && Framed(anons, memory) && k in slots && slots[k].anon in anons && a != 0 && a !in anons && f !in memory
    requires anons'.Keys == anons.Keys + {a} && anons'[a].frame == f && forall b :: b in anons ==> anons'[b].frame == anons[b].frame
    ensures FlatOf(slots[k := slots[k].(anon := a)], anons', memory[f := memory[anons[slots[k].anon].frame]]) == FlatOf(slots, anons, memory)
  {
    forall j | j in slots && slots[j].anon != 0 ensures slots[j].anon in anons {
      SlotLive(slots, anons, j);
    }
  }

  /** A slot leaves a shared anon for a copy of its frame: nobody sees a difference. */
  lemma CopyAway(slots: map<Key, Slot>, ptes: map<Key, Pte>, anons: map<nat, Anon>, memory: map<nat, Page>, k: Key, a: nat, f: nat)
    requires Inv(slots, ptes, anons, memory) && k in slots && slots[k].anon in anons && anons[slots[k].anon].refCount > 1
    requires a != 0 && a !in anons && f != 0 && f !in memory && slots[k].flags.prot.read
    ensures var was, prot := slots[k].anon, slots[k].flags.prot;
      var slots' := slots[k := slots[k].(anon := a)];
      var anons' := anons[was := anons[was].(refCount := anons[was].refCount - 1)][a := Anon(1, f)];
      var memory' := memory[f := memory[anons[was].frame]];
      && Inv(slots', ptes[k := Pte(f, prot.write, prot.execute)], anons', memory')
      && FlatOf(slots', anons', memory') == FlatOf(slots, anons, memory)
  {
    hide FlatOf, Content;
    var was, slot, prot := slots[k].anon, slots[k].(anon := a), slots[k].flags.prot;
    var anons1 := anons[was := anons[was].(refCount := anons[was].refCount - 1)];
    var anons' := anons1[a := Anon(1, f)];
    CopyFlat(slots, anons, anons', memory, k, a, f);
    CountMoved(slots, anons, anons', k, slot);
    FramedCount(anons, memory, was, anons[was].refCount - 1);
    FramedNew(anons1, memory, a, f, memory[anons[was].frame]);
    hide Counted, Framed;
    var ptes' := ptes[k := Pte(f, prot.write, prot.execute)];
    forall j | j in ptes' ensures MappingSafe(j, ptes'[j], slots[k := slot], anons') {
      if j != k {
        assert MappingSafe(j, ptes[j], slots, anons);
      }
    }
  }

  /** The state after `c` has come to share the anon of `k`. */
  function SharedSlots(slots: map<Key, Slot>, k: Key, c: Key): map<Key, Slot>
    requires k in slots
  {
    var slot := slots[k].(flags := slots[k].flags.(needsCopy := true));
    slots[k := slot][c := slot]
  }

  function SharedAnons(slots: map<Key, Slot>, anons: map<nat, Anon>, k: Key): map<nat, Anon>
    requires k in slots && (slots[k].anon == 0 || slots[k].anon in anons)
  {
    var was := slots[k].anon;
    if was == 0 then anons else anons[was := anons[was].(refCount := anons[was].refCount + 1)]
  }

  function ReadOnlyPtes(ptes: map<Key, Pte>, k: Key, prot: Prot): map<Key, Pte> {
    if k in ptes && prot.write then ptes[k := Pte(ptes[k].frame, false, prot.execute)] else ptes
  }

  lemma ShareFlat(slots: map<Key, Slot>, anons: map<nat, Anon>, memory: map<nat, Page>, k: Key, c: Key)
    requires k in slots && c !in slots && (slots[k].anon == 0 || slots[k].anon in anons)
    ensures FlatOf(SharedSlots(slots, k, c), SharedAnons(slots, anons, k), memory)
         == FlatOf(slots, anons, memory)[c := FlatOf(slots, anons, memory)[k]]
  {
  }

  lemma ShareCounts(slots: map<Key, Slot>, anons: map<nat, Anon>, k: Key, c: Key)
    requires Counted(slots, anons) && k in slots && c !in slots && (slots[k].anon == 0 || slots[k].anon in anons)
    ensures Counted(SharedSlots(slots, k, c), SharedAnons(slots, anons, k))
  {
    hide Refs;
    var slot := slots[k].(flags := slots[k].flags.(needsCopy := true));
    CountMoved(slots, anons, anons, k, slot);
    CountMoved(slots[k := slot], anons, SharedAnons(slots, anons, k), c, slot);
  }

  lemma ShareMapping(slots: map<Key, Slot>, ptes: map<Key, Pte>, anons: map<nat, Anon>, k: Key, c: Key, j: Key)
    requires Counted(slots, anons) && k in slots && c !in slots && (slots[k].anon == 0 || slots[k].anon in anons)
    requires j in ptes && MappingSafe(j, ptes[j], slots, anons)
    ensures MappingSafe(j, ReadOnlyPtes(ptes, k, slots[k].flags.prot)[j], SharedSlots(slots, k, c), SharedAnons(slots, anons, k))
  {
    if j != k && slots[j].anon == slots[k].anon && ptes[j].write {
      OneReference(slots, anons, j, k);
    }
  }

  /** Fork of one slot: `c` comes to share the anon of `k`, whose mapping loses its write permission. */
  lemma Share(slots: map<Key, Slot>, ptes: map<Key, Pte>, ptes': map<Key, Pte>, anons: map<nat, Anon>, memory: map<nat, Page>, k: Key, c: Key)
    requires Inv(slots, ptes, anons, memory) && k in slots && c !in slots && (slots[k].anon == 0 || slots[k].anon in anons)
    requires ptes' == ReadOnlyPtes(ptes, k, slots[k].flags.prot)
    ensures Inv(SharedSlots(slots, k, c), ptes', SharedAnons(slots, anons, k), memory)
  {
    hide Counted, Framed, MappingSafe, SharedSlots;
    ShareCounts(slots, anons, k, c);
    if slots[k].anon != 0 {
      FramedCount(anons, memory, slots[k].anon, anons[slots[k].anon].refCount + 1);
    }
    forall j | j in ptes' ensures MappingSafe(j, ptes'[j], SharedSlots(slots, k, c), SharedAnons(slots, anons, k)) {
      ShareMapping(slots, ptes, anons, k, c, j);
    }
  }

  lemma DropFlat(slots: map<Key, Slot>, anons: map<nat, Anon>, anons': map<nat, Anon>, memory: map<nat, Page>, memory': map<nat, Page>, k: Key)
    requires Counted(slots, anons) && Framed(anons, memory) && k in slots && slots[k].anon in anons
    requires forall b :: b in anons && (b != slots[k].anon || anons[b].refCount > 1) ==>
      b in anons' && anons'[b].frame == anons[b].frame && anons[b].frame in memory' && memory'[anons[b].frame] == memory[anons[b].frame]
    ensures FlatOf(slots - {k}, anons', memory') == FlatOf(slots, anons, memory) - {k}
  {
    forall j | j in slots && j != k && slots[j].anon != 0
      ensures slots[j].anon in anons && (slots[j].anon != slots[k].anon || anons[slots[j].anon].refCount > 1)
    {
      SlotLive(slots, anons, j);
      if slots[j].anon == slots[k].anon && anons[slots[j].anon].refCount == 1 {
        OneReference(slots, anons, k, j);
      }
    }
  }

  lemma EmptySlot(slots: map<Key, Slot>, ptes: map<Key, Pte>, anons: map<nat, Anon>, memory: map<nat, Page>, k: Key, flags: Flags)
    requires Inv(slots, ptes, anons, memory) && k !in slots
    ensures Inv(slots[k := Slot(0, flags)], ptes, anons, memory)
    ensures FlatOf(slots[k := Slot(0, flags)], anons, memory) == FlatOf(slots, anons, memory)[k := if flags.zero then Some(ZeroPage()) else None]
  {
    CountMoved(slots, anons, anons, k, Slot(0, flags));
    forall j | j in ptes ensures MappingSafe(j, ptes[j], slots[k := Slot(0, flags)], anons) {
      assert MappingSafe(j, ptes[j], slots, anons);
    }
  }

  /** When the last slot is gone, so is every frame. */
  lemma NothingLeaks(slots: map<Key, Slot>, ptes: map<Key, Pte>, anons: map<nat, Anon>, memory: map<nat, Page>)
    requires Inv(slots, ptes, anons, memory) && slots == map[]
    ensures anons == map[] && memory == map[] && ptes == map[]
  {
    forall a ensures a !in anons {
      assert Refs(slots, a) == {};
      assert a != 0 ==> RefCount(anons, a) == 0;
    }
  }

  lemma SlotFacts(slots: map<Key, Slot>, ptes: map<Key, Pte>, anons: map<nat, Anon>, memory: map<nat, Page>, k: Key)
    requires Inv(slots, ptes, anons, memory) && k in slots
    ensures slots[k].anon == 0 || slots[k].anon in anons
    ensures k in ptes ==> slots[k].flags.prot.read
  {
    if slots[k].anon != 0 {
      SlotLive(slots, anons, k);
    }
  }

  /** The state after a slot is deleted: the last reference takes the anon and its frame with it. */
  function DroppedAnons(slots: map<Key, Slot>, anons: map<nat, Anon>, k: Key): map<nat, Anon>
    requires k in slots && slots[k].anon in anons && anons[slots[k].anon].refCount > 0
  {
    var was := slots[k].anon;
    if anons[was].refCount == 1 then anons - {was} else anons[was := anons[was].(refCount := anons[was].refCount - 1)]
  }

  function DroppedMemory(slots: map<Key, Slot>, anons: map<nat, Anon>, memory: map<nat, Page>, k: Key): map<nat, Page>
    requires k in slots && slots[k].anon in anons
  {
    if anons[slots[k].anon].refCount == 1 then memory - {anons[slots[k].anon].frame} else memory
  }

  lemma DropFrames(slots: map<Key, Slot>, anons: map<nat, Anon>, memory: map<nat, Page>, k: Key)
    requires Framed(anons, memory) && k in slots && slots[k].anon in anons && anons[slots[k].anon].refCount > 0
    ensures Framed(DroppedAnons(slots, anons, k), DroppedMemory(slots, anons, memory, k))
  {
    hide Framed;
    var was := slots[k].anon;
    if anons[was].refCount == 1 {
      FramedFreed(anons, memory, was);
    } else {
      FramedCount(anons, memory, was, anons[was].refCount - 1);
    }
  }

  lemma DropCounts(slots: map<Key, Slot>, anons: map<nat, Anon>, k: Key)
    requires Counted(slots, anons) && k in slots && slots[k].anon in anons
    ensures anons[slots[k].anon].refCount > 0 && Counted(slots - {k}, DroppedAnons(slots, anons, k))
  {
    hide Refs;
    CountDropped(slots, anons, DroppedAnons(slots, anons, k), k);
  }

  lemma DropKeeps(slots: map<Key, Slot>, anons: map<nat, Anon>, memory: map<nat, Page>, k: Key)
    requires Counted(slots, anons) && Framed(anons, memory) && k in slots && slots[k].anon in anons && anons[slots[k].anon].refCount > 0
    ensures var anons', memory' := DroppedAnons(slots, anons, k), DroppedMemory(slots, anons, memory, k);
      forall b :: b in anons && (b != slots[k].anon || anons[b].refCount > 1) ==>
        && b in anons' && anons'[b].frame == anons[b].frame && 0 < anons'[b].refCount <= anons[b].refCount
        && anons[b].frame in memory && anons[b].frame in memory' && memory'[anons[b].frame] == memory[anons[b].frame]
  {
    hide Refs;
  }

  lemma Drop(slots: map<Key, Slot>, ptes: map<Key, Pte>, anons: map<nat, Anon>, memory: map<nat, Page>, k: Key)
    requires Inv(slots, ptes, anons, memory) && k in slots && slots[k].anon in anons
    ensures anons[slots[k].anon].refCount > 0
    ensures var anons', memory' := DroppedAnons(slots, anons, k), DroppedMemory(slots, anons, memory, k);
      Inv(slots - {k}, ptes - {k}, anons', memory') && FlatOf(slots - {k}, anons', memory') == FlatOf(slots, anons, memory) - {k}
  {
    hide FlatOf, Counted, Framed, MappingSafe, DroppedAnons, DroppedMemory;
    DropCounts(slots, anons, k);
    DropFrames(slots, anons, memory, k);
    DropKeeps(slots, anons, memory, k);
    var anons', memory' := DroppedAnons(slots, anons, k), DroppedMemory(slots, anons, memory, k);
    DropFlat(slots, anons, anons', memory, memory', k);
    DropMappings(slots, ptes, anons, anons', memory, k);
  }

  lemma DropMappings(slots: map<Key, Slot>, ptes: map<Key, Pte>, anons: map<nat, Anon>, anons': map<nat, Anon>, memory: map<nat, Page>, k: Key)
    requires Inv(slots, ptes, anons, memory) && k in slots && slots[k].anon in anons
    requires forall b :: b in anons && (b != slots[k].anon || anons[b].refCount > 1) ==>
      b in anons' && anons'[b].frame == anons[b].frame && anons'[b].refCount <= anons[b].refCount && anons'[b].refCount > 0
    ensures forall j :: j in ptes - {k} ==> MappingSafe(j, ptes[j], slots - {k}, anons')
  {
    forall j | j in ptes - {k} ensures MappingSafe(j, ptes[j], slots - {k}, anons') {
      assert MappingSafe(j, ptes[j], slots, anons);
      if slots[j].anon == slots[k].anon && anons[slots[k].anon].refCount == 1 {
        OneReference(slots, anons, k, j);
      }
    }
  }

  lemma DropEmpty(slots: map<Key, Slot>, ptes: map<Key, Pte>, anons: map<nat, Anon>, memory: map<nat, Page>, k: Key)
    requires Inv(slots, ptes, anons, memory) && k in slots && slots[k].anon == 0
    ensures Inv(slots - {k}, ptes, anons, memory) && FlatOf(slots - {k}, anons, memory) == FlatOf(slots, anons, memory) - {k}
  {
    CountDropped(slots, anons, anons, k);
    forall j | j in ptes ensures MappingSafe(j, ptes[j], slots - {k}, anons) {
      assert MappingSafe(j, ptes[j], slots, anons);
    }
  }

  // ---------- Allocations ----------

  /** The fault is the first touch of a page, and would be served. */
  predicate FirstTouch(slots: map<Key, Slot>, k: Key, code: FaultCode) {
    k in slots && slots[k].anon == 0 && FaultValid(slots[k].flags.prot, code) && !code.present
  }

  /** What kcalloc_vmm and the physical allocator return if they are asked, 0 on failure, and what the frame holds. */
  datatype Grant = Grant(anon: nat, frame: nat, junk: Page)

  /** A first touch that gets an anon but no frame. */
  predicate Unbacked(slots: map<Key, Slot>, k: Key, code: FaultCode, g: Grant) {
    FirstTouch(slots, k, code) && g.anon != 0 && g.frame == 0
  }

  /** The access needs an anon and a frame of its own. */
  predicate Needs(slots: map<Key, Slot>, anons: map<nat, Anon>, k: Key, write: bool) {
    k in slots && (slots[k].anon == 0 || (write && RefCount(anons, slots[k].anon) > 1))
  }

  /** If it needs them, it gets them. */
  predicate Served(slots: map<Key, Slot>, anons: map<nat, Anon>, k: Key, write: bool, g: Grant) {
    Needs(slots, anons, k, write) ==> g.anon != 0 && g.frame != 0
  }

  /** What a slot's page is in the private memories, and what its mapping allows. */
  ghost predicate PageFacts(s: Memories, slots: map<Key, Slot>, ptes: map<Key, Pte>, anons: map<nat, Anon>, k: Key) {
    && (k in s.page <==> k in slots) && (k in s.prot <==> k in slots)
    && (k in slots ==> s.prot[k] == slots[k].flags.prot && (s.page[k].None? <==> slots[k].anon == 0 && !slots[k].flags.zero))
    && (k in slots && slots[k].anon == 0 && slots[k].flags.zero ==> s.page[k] == Some(ZeroPage()))
    && (k in slots && slots[k].anon != 0 ==> slots[k].anon in anons && anons[slots[k].anon].refCount > 0)
    && (k in ptes ==> k in slots && s.page[k].Some? && s.prot[k].read && slots[k].anon != 0)
    && (k in ptes && ptes[k].write ==> s.prot[k].write && RefCount(anons, slots[k].anon) == 1)
    && (k in ptes ==> (ptes[k].execute <==> s.prot[k].execute))
  }

  /** How a page fault ends: `valid` says whether the invariant still holds. */
  ghost predicate FaultEnds(s: Memories, slots: map<Key, Slot>, ptes: map<Key, Pte>, anons: map<nat, Anon>, k: Key, code: FaultCode, g: Grant,
                            valid: bool, ok: bool, s': Memories, ptes': map<Key, Pte>) {
    && valid == !Unbacked(slots, k, code, g)
    && (valid ==> s' == Faulted(s, k, code, g.anon != 0, g.junk))
    && (valid ==>
      (ok <==>
        && k in slots && FaultValid(slots[k].flags.prot, code) && slots[k].flags.prot.read
        && Served(slots, anons, k, code.write, g) && (slots[k].anon == 0 ==> !code.present)))
    && (ok && (code.present <==> k in ptes) ==>
      && k in ptes' && (code.write ==> ptes'[k].write) && (code.execute ==> ptes'[k].execute)
      && (ptes'[k].execute <==> slots[k].flags.prot.execute))
  }

  /** How a load ends. */
  ghost predicate LoadEnds(s: Memories, slots: map<Key, Slot>, anons: map<nat, Anon>, k: Key, offset: Offset, g: Grant,
                           valid: bool, r: Outcome, s': Memories) {
    && valid == !Unbacked(slots, k, FaultCode(false, false, false), g)
    && (valid ==>
      if Allows(s, k, false) && Served(slots, anons, k, false, g)
      then r == Byte(Peek(Filled(s.page[k], g.junk), offset)) && s' == s.(page := s.page[k := Some(Filled(s.page[k], g.junk))])
      else r == Refused && s' == s)
  }

  /** How the fetch of an instruction ends. */
  ghost predicate FetchEnds(s: Memories, slots: map<Key, Slot>, anons: map<nat, Anon>, k: Key, offset: Offset, g: Grant,
                            valid: bool, r: Outcome, s': Memories) {
    && valid == !Unbacked(slots, k, FaultCode(false, false, true), g)
    && (valid ==>
      if AllowsFetch(s, k) && Served(slots, anons, k, false, g)
      then r == Byte(Peek(Filled(s.page[k], g.junk), offset)) && s' == s.(page := s.page[k := Some(Filled(s.page[k], g.junk))])
      else r == Refused && s' == Faulted(s, k, FaultCode(false, false, true), g.anon != 0 && !AllowsFetch(s, k), g.junk))
  }

  /** How a store ends. */
  ghost predicate StoreEnds(s: Memories, slots: map<Key, Slot>, anons: map<nat, Anon>, k: Key, offset: Offset, byte: bv8, g: Grant,
                            valid: bool, r: Outcome, s': Memories) {
    && valid == !Unbacked(slots, k, FaultCode(false, true, false), g)
    && (valid ==>
      if Allows(s, k, true) && Served(slots, anons, k, true, g)
      then r == Done && s' == s.(page := s.page[k := Some(Poke(Filled(s.page[k], g.junk), offset, byte))])
      else r == Refused && s' == Faulted(s, k, FaultCode(false, true, false), g.anon != 0 && !Allows(s, k, true), g.junk))
  }

  class AddressSpaces {
    var slots: map<Key, Slot>
    var ptes: map<Key, Pte>
    var anons: map<nat, Anon>
    /** The contents of the frames that are allocated to anons. */
    var memory: map<nat, Page>
    /** The calls of the physical memory manager so far. */
    ghost var log: seq<Call>
    /** The kernel has written through a null pointer. */
    var halted: bool

    ghost predicate Valid()
      reads this
    {
      Inv(slots, ptes, anons, memory) && Ledger(log, memory) && !halted
    }

    function Now(): Memories
      reads this
    {
      Memories(FlatOf(slots, anons, memory), ProtsOf(slots))
    }

    constructor ()
      ensures Valid() && Now() == Memories(map[], map[]) && slots == map[] && anons == map[] && memory == map[] && log == []
    {
      slots, ptes, anons, memory, log, halted := map[], map[], map[], map[], [], false;
    }

    lemma Facts(k: Key)
      requires Valid()
      ensures PageFacts(Now(), slots, ptes, anons, k)
      ensures k in ptes ==> ptes[k].frame in memory
    {
      Permitted(slots, ptes, anons, memory, k);
    }

    // ---------- PageMapper, taken as a map ----------

    /** PageMapper::MapPage. */
    method MapPage(k: Key, frame: nat, prot: Prot) returns (ok: bool)
      modifies `ptes
      ensures ok == prot.read
      ensures ptes == if ok then old(ptes)[k := Pte(frame, prot.write, prot.execute)] else old(ptes)
    {
      if !prot.read {
        return false;
      }
      ptes := ptes[k := Pte(frame, prot.write, prot.execute)];
      return true;
    }

    /** PageMapper::RemapPage, on a mapper that leaves pages without a mapping alone. */
    method RemapPage(k: Key, prot: Prot) returns (ok: bool)
      modifies `ptes
      ensures ok == prot.read
      ensures ptes == if ok && k in old(ptes) then old(ptes)[k := Pte(old(ptes)[k].frame, prot.write, prot.execute)] else old(ptes)
    {
      if !prot.read {
        return false;
      }
      if k in ptes {
        ptes := ptes[k := Pte(ptes[k].frame, prot.write, prot.execute)];
      }
      return true;
    }

    // ---------- The processor ----------

    /** A user load goes through the page tables; what it returns is what the private memory holds. */
    method UserRead(k: Key, offset: Offset) returns (byte: Option<bv8>)
      requires k in ptes ==> ptes[k].frame in memory
      ensures byte.Some? <==> k in ptes
      ensures byte.Some? && Valid() ==> k in Now().page && Now().page[k].Some? && byte.value == Peek(Now().page[k].value, offset)
    {
      if k !in ptes {
        return None;
      }
      assert Valid() ==> MappingSafe(k, ptes[k], slots, anons);
      return Some(Peek(memory[ptes[k].frame], offset));
    }

    /** The fetch of an instruction needs a mapping that allows execution. */
    method UserExecute(k: Key, offset: Offset) returns (byte: Option<bv8>)
      requires k in ptes ==> ptes[k].frame in memory
      ensures byte.Some? <==> k in ptes && ptes[k].execute
      ensures byte.Some? && Valid() ==> k in Now().page && Now().page[k].Some? && byte.value == Peek(Now().page[k].value, offset)
    {
      if k !in ptes || !ptes[k].execute {
        return None;
      }
      byte := UserRead(k, offset);
    }

    /** A user store through a writable mapping changes this page of this address space and nothing else. */
    method UserWrite(k: Key, offset: Offset, byte: bv8) returns (ok: bool)
      requires k in ptes ==> ptes[k].frame in memory
      modifies `memory
      ensures (ok <==> k in ptes && ptes[k].write) && memory.Keys == old(memory.Keys)
      ensures old(Valid()) ==> Valid() && (ok ==> k in old(Now()).page && old(Now()).page[k].Some?)
      ensures old(Valid()) ==> Now() == if ok then old(Now()).(page := old(Now()).page[k := Some(Poke(old(Now()).page[k].value, offset, byte))]) else old(Now())
    {
      if k !in ptes || !ptes[k].write {
        return false;
      }
      assert Valid() ==> MappingSafe(k, ptes[k], slots, anons);
      ghost var m := memory;
      memory := memory[ptes[k].frame := Poke(memory[ptes[k].frame], offset, byte)];
      if old(Valid()) {
        SoleReader(slots, anons, m, memory, k);
      }
      return true;
    }

    // ---------- VMM ----------

    /** VMM::HandlePageFault for the page `k`. */
    method HandlePageFault(k: Key, code: FaultCode, g: Grant) returns (ok: bool)
      requires Valid() && g.anon !in anons && g.frame !in memory
      modifies this
      ensures FaultEnds(old(Now()), old(slots), old(ptes), old(anons), k, code, g, Valid(), ok, Now(), ptes)
      ensures !Valid() ==> g.anon in anons && anons[g.anon].frame == 0
      ensures k in ptes ==> ptes[k].frame in memory
      ensures old(log) <= log
    {
      hide *;
      Facts(k);
      ghost var s, slots0, ptes0, anons0 := Now(), slots, ptes, anons;
      if k !in slots || !FaultValid(slots[k].flags.prot, code) {
        FaultRefused(s, slots, ptes, anons, k, code, g);
        return false;
      }
      var anon := slots[k].anon;
      AnonLive(s, slots, ptes, anons, k);
      if anon != 0 {
        var isShared := anons[anon].refCount > 1;
        if code.write && isShared {
          ok := CopyFault(k, g.anon, g.frame);
          FaultCopied(s, slots0, ptes0, anons0, k, code, g, ok, ptes);
        } else {
          ok := MapFault(k, code.present);
          FaultMapped(s, slots0, ptes0, anons0, k, code, g, ok, ptes);
        }
      } else {
        ok := TouchFault(k, code.present, g);
        FaultTouched(s, slots0, ptes0, anons0, k, code, g, Valid(), ok, Now(), ptes);
      }
    }

    /** The write to a shared page: a private copy takes its place. */
    method CopyFault(k: Key, newAnon: nat, frame: nat) returns (ok: bool)
      requires Valid() && newAnon !in anons && frame !in memory
      requires k in slots && slots[k].anon in anons && anons[slots[k].anon].refCount > 1
      modifies this
      ensures Valid() && Now() == old(Now()) && old(log) <= log
      ensures k in slots && slots[k].flags == old(slots)[k].flags
      ensures ok <==> newAnon != 0 && frame != 0 && slots[k].flags.prot.read
      ensures ok ==> k in ptes && ptes[k].write == slots[k].flags.prot.write && ptes[k].execute == slots[k].flags.prot.execute
      ensures k in ptes ==> ptes[k].frame in memory
    {
      hide Inv, Ledger, FlatOf, ProtsOf;
      MappedFrames(slots, ptes, anons, memory);
      if newAnon == 0 || frame == 0 {
        return false;
      }
      var anon, prot := slots[k].anon, slots[k].flags.prot;
      SlotFrame(slots, ptes, anons, memory, k);
      ghost var s0, p0, a0, m0 := slots, ptes, anons, memory;
      var page := memory[anons[anon].frame];
      ok := MapPage(k, frame, prot);
      if ok {
        slots := slots[k := slots[k].(anon := newAnon)];
        anons := anons[anon := anons[anon].(refCount := anons[anon].refCount - 1)][newAnon := Anon(1, frame)];
        memory, log := memory[frame := page], log + [Took(frame)];
        CopyAway(s0, p0, a0, m0, k, newAnon, frame);
        SameProts(s0, k, slots[k]);
        LedgerTook(old(log), m0, frame, page);
      } else {
        log := log + [Took(frame)] + [Gave(frame)];
        LedgerBack(old(log), memory, frame);
      }
    }

    /** The frame exists: it is mapped, without write permission while it is shared. */
    method MapFault(k: Key, present: bool) returns (ok: bool)
      requires Valid() && k in slots && slots[k].anon in anons
      modifies `ptes
      ensures Valid() && Now() == old(Now()) && ok == slots[k].flags.prot.read
      ensures ok && (k in old(ptes) || !present) ==>
        && k in ptes && ptes[k].write == (slots[k].flags.prot.write && anons[slots[k].anon].refCount == 1)
        && ptes[k].execute == slots[k].flags.prot.execute
      ensures k in ptes ==> ptes[k].frame in memory
    {
      hide Ledger;
      var anon, prot := slots[k].anon, slots[k].flags.prot;
      ghost var p0 := ptes;
      var mapProt := if anons[anon].refCount > 1 then prot.(write := false) else prot;
      if present {
        ok := RemapPage(k, mapProt);
      } else {
        ok := MapPage(k, anons[anon].frame, mapProt);
      }
      forall j | j in ptes ensures MappingSafe(j, ptes[j], slots, anons) {
        if j != k {
          assert MappingSafe(j, p0[j], slots, anons);
        }
      }
    }

    /** The first touch of a page. Whether there was a frame is not tested. */
    method TouchFault(k: Key, present: bool, g: Grant) returns (ok: bool)
      requires Valid() && g.anon !in anons && g.frame !in memory && k in slots && slots[k].anon == 0
      modifies this
      ensures Valid() <==> g.anon == 0 || present || g.frame != 0
      ensures !Valid() ==> g.anon in anons && anons[g.anon].frame == 0 && k in slots && slots[k].anon == g.anon
      ensures k in ptes ==> ptes[k].frame in memory
      ensures old(log) <= log && halted == old(halted)
      ensures Valid() ==> Now() == if g.anon == 0 || present then old(Now())
        else old(Now()).(page := old(Now()).page[k := Some(if old(slots)[k].flags.zero then ZeroPage() else g.junk)])
      ensures ok <==> g.anon != 0 && !present && old(slots)[k].flags.prot.read
      ensures k in slots && slots[k].flags == old(slots)[k].flags
      ensures ok ==> k in ptes && ptes[k].write == slots[k].flags.prot.write && ptes[k].execute == slots[k].flags.prot.execute
    {
      hide Inv, Ledger, FlatOf, ProtsOf, MappingSafe, Counted, Framed, Refs, ZeroPage;
      if present || g.anon == 0 {
        MappedFrames(slots, ptes, anons, memory);
        return false;
      }
      var prot, page := slots[k].flags.prot, if slots[k].flags.zero then ZeroPage() else g.junk;
      ghost var s0, p0, a0, m0 := slots, ptes, anons, memory;
      NotMapped(s0, p0, a0, m0, k);
      anons := anons[g.anon := Anon(1, g.frame)];
      memory := memory[g.frame := page];
      slots := slots[k := slots[k].(anon := g.anon)];
      ok := MapPage(k, g.frame, prot);
      log := if g.frame == 0 then log else log + [Took(g.frame)];
      if g.frame == 0 {
        NoFrame(slots, ptes, anons, memory, g.anon);
      } else {
        Touch(s0, p0, a0, m0, k, g.anon, g.frame, page);
        SameProts(s0, k, slots[k]);
        LedgerTook(old(log), m0, g.frame, page);
        if ok {
          TouchMapped(slots, p0, anons, memory, k);
        }
      }
    }

    /** The reference a forked slot takes. */
    method AddReference(k: Key)
      requires k in slots && (slots[k].anon == 0 || slots[k].anon in anons)
      modifies `anons
      ensures anons == SharedAnons(slots, old(anons), k)
    {
      var anon := slots[k].anon;
      if anon != 0 {
        anons := anons[anon := anons[anon].(refCount := anons[anon].refCount + 1)];
      }
    }

    /** The parent's mapping goes read-only, so that its next write faults. */
    method Downgrade(k: Key, prot: Prot)
      requires k in ptes ==> prot.read
      modifies `ptes
      ensures ptes == ReadOnlyPtes(old(ptes), k, prot) && ptes.Keys == old(ptes.Keys)
    {
      if prot.write {
        var _ := RemapPage(k, prot.(write := false));
      }
    }

    /** One slot of VMM::Fork. */
    method ForkSlot(k: Key, c: Key)
      requires Valid() && k in slots && c !in slots && c !in ptes
      modifies `slots, `ptes, `anons
      ensures Valid() && Now() == Memories(old(Now()).page[c := old(Now()).page[k]], old(Now()).prot[c := old(Now()).prot[k]])
      ensures slots.Keys == old(slots.Keys) + {c} && ptes.Keys == old(ptes.Keys)
    {
      hide Inv, Ledger, FlatOf, ProtsOf, SharedAnons, ReadOnlyPtes;
      SlotFacts(slots, ptes, anons, memory, k);
      SharedProts(slots, k, c);
      KeysOf(slots, anons, memory);
      ghost var s0, p0, a0 := slots, ptes, anons;
      AddReference(k);
      var slot := slots[k].(flags := slots[k].flags.(needsCopy := true));
      slots := slots[k := slot][c := slot];
      Downgrade(k, slot.flags.prot);
      Share(s0, p0, ptes, a0, memory, k, c);
      ShareFlat(s0, a0, memory, k, c);
    }

    /**
     * VMM::Fork: `child` gets the private memory of `parent` as it is now, page by page. `pages` are the pages of the
     * entries that are reached before an allocation fails, all pages of the parent if none does.
     */
    method Fork(child: nat, parent: nat, pages: set<nat>)
      requires Valid() && forall v :: v in pages ==> (parent, v) in slots
      requires child != parent && forall k: Key :: k.0 == child ==> k !in slots
      modifies `slots, `ptes, `anons
      ensures Valid()
      ensures Now() == Memories(ForkedPages(old(Now()).page, child, parent, pages), ForkedPages(old(Now()).prot, child, parent, pages))
    {
      var todo := pages;
      ghost var s0, keys := Now(), slots.Keys;
      NoMappings(slots, ptes, anons, memory, child);
      hide *;
      ForkingStart(s0, keys, ptes.Keys, child, parent, pages);
      while todo != {}
        invariant Valid() && Forking(s0, keys, Now(), slots.Keys, ptes.Keys, child, parent, pages, todo)
        decreases todo
      {
        var v :| v in todo;
        ForkingNext(s0, keys, Now(), slots.Keys, ptes.Keys, child, parent, pages, todo, v);
        ForkSlot((parent, v), (child, v));
        todo := todo - {v};
      }
      ForkingDone(s0, keys, Now(), slots.Keys, ptes.Keys, child, parent, pages);
    }

    /** One slot of VMM::Delete: the frame goes back with its last reader. */
    method DeleteSlot(k: Key)
      requires Valid() && k in slots
      modifies this
      ensures Valid() && slots == old(slots) - {k} && ptes.Keys <= old(ptes.Keys) && k !in ptes
      ensures Now() == Memories(old(Now()).page - {k}, old(Now()).prot - {k})
      ensures log == old(log) + var a := old(slots)[k].anon; if a in old(anons) && Refs(old(slots), a) == {k} then [Gave(old(anons)[a].frame)] else []
      ensures forall a :: a in anons ==> a in old(anons) && anons[a].frame == old(anons)[a].frame
    {
      hide Inv, Ledger, FlatOf, ProtsOf, Refs;
      var anon := slots[k].anon;
      OnlyReader(slots, ptes, anons, memory, k);
      DroppedProts(slots, k);
      if anon == 0 {
        NotMapped(slots, ptes, anons, memory, k);
        DropEmpty(slots, ptes, anons, memory, k);
      } else {
        SlotFacts(slots, ptes, anons, memory, k);
        SlotFrame(slots, ptes, anons, memory, k);
        Drop(slots, ptes, anons, memory, k);
        // PageMapper::UnmapPage
        ptes := ptes - {k};
        var count := anons[anon].refCount - 1;
        if count == 0 {
          LedgerGave(log, memory, anons[anon].frame);
          log := log + [Gave(anons[anon].frame)];
          memory := memory - {anons[anon].frame};
          anons := anons - {anon};
        } else {
          anons := anons[anon := anons[anon].(refCount := count)];
        }
      }
      slots := slots - {k};
    }

    /**
     * VMM::Delete: every slot of the address space goes, the private memory of no other one changes, and the frames that
     * stay are exactly those another address space reads.
     */
    method Delete(space: nat)
      requires Valid()
      modifies this
      ensures Valid() && old(log) <= log
      ensures Now() == Memories(WithoutSpace(old(Now()).page, space), WithoutSpace(old(Now()).prot, space))
      ensures forall f: nat :: f in memory <==>
        exists j :: j in old(slots) && j.0 != space && old(slots)[j].anon in old(anons) && old(anons)[old(slots)[j].anon].frame == f
    {
      var todo := set k | k in slots && k.0 == space;
      ghost var s0, slots0, anons0 := Now(), slots, anons;
      DeletingStart(slots, ptes, anons, memory, log, space);
      hide *;
      while todo != {}
        invariant Valid() && Deleting(s0, slots0, anons0, old(log), Now(), slots, anons, log, space, todo)
        decreases todo
      {
        var k :| k in todo;
        ghost var now, slots1, anons1, log1 := Now(), slots, anons, log;
        DeletingKey(s0, slots0, anons0, old(log), now, slots1, anons1, log1, space, todo, k);
        DeleteSlot(k);
        DeletingNext(s0, slots0, anons0, old(log), now, slots1, anons1, log1, Now(), slots, anons, log, space, todo, k);
        todo := todo - {k};
      }
      DeletingDone(s0, slots0, anons0, old(log), slots, ptes, anons, memory, log, space);
    }

    /** One page of VMM::AllocateAnonPages, at an address the region allocator has just handed out: empty, or filled at once if physical pages are asked for. */
    method AddSlot(k: Key, prot: Prot, zero: bool, phys: bool, g: Grant)
      requires Valid() && k !in slots && g.anon !in anons && g.frame !in memory
      modifies this
      ensures Valid() <==> !phys || (g.anon != 0 && g.frame != 0)
      ensures halted <==> phys && g.anon == 0
      ensures !Valid() && !halted ==> g.anon in anons && anons[g.anon].frame == 0 && k in slots && slots[k].anon == g.anon
      ensures old(log) <= log
      ensures Valid() ==> Now() == Memories(old(Now()).page[k := Fresh(zero, phys, g.junk)], old(Now()).prot[k := prot])
    {
      hide Inv, Ledger, FlatOf, ProtsOf, Fresh, ZeroPage;
      if phys && g.anon == 0 {
        halted := true;
        return;
      }
      var flags := Flags(prot, zero, false);
      NewSlot(k, flags);
      ghost var s0 := Now();
      slots := slots[k := Slot(0, flags)];
      if phys {
        var _ := TouchFault(k, false, g);
        FreshTwice(s0.page, k, zero, g.junk);
      } else {
        FreshEmpty(zero, g.junk);
      }
    }

    /** The state with one more empty slot. */
    lemma NewSlot(k: Key, flags: Flags)
      requires Valid() && k !in slots
      ensures var slots' := slots[k := Slot(0, flags)];
        && Inv(slots', ptes, anons, memory) && Ledger(log, memory)
        && FlatOf(slots', anons, memory) == Now().page[k := Fresh(flags.zero, false, ZeroPage())] && ProtsOf(slots') == Now().prot[k := flags.prot]
    {
      EmptySlot(slots, ptes, anons, memory, k, flags);
      SameProts(slots, k, Slot(0, flags));
    }

    // ---------- Accesses as the program sees them ----------

    /** A user load: try, take the fault if there is one, try again. */
    method UserLoad(k: Key, offset: Offset, g: Grant) returns (r: Outcome)
      requires Valid() && g.anon !in anons && g.frame !in memory
      modifies this
      ensures LoadEnds(old(Now()), old(slots), old(anons), k, offset, g, Valid(), r, Now())
      ensures old(log) <= log
    {
      hide *;
      Facts(k);
      ghost var s, slots0, ptes0, anons0 := Now(), slots, ptes, anons;
      var byte := UserRead(k, offset);
      if byte == None {
        var resolved := HandlePageFault(k, FaultCode(false, false, false), g);
        if resolved {
          byte := UserRead(k, offset);
        }
        LoadFaulted(s, slots0, ptes0, anons0, k, offset, g, Valid(), resolved, Now(), ptes, byte);
      } else {
        LoadMapped(s, slots0, ptes0, anons0, k, offset, g, byte);
      }
      r := if byte == None then Refused else Byte(byte.value);
    }

    /** The fetch of an instruction: try, take the fault if there is one, try again. */
    method UserFetch(k: Key, offset: Offset, g: Grant) returns (r: Outcome)
      requires Valid() && g.anon !in anons && g.frame !in memory
      modifies this
      ensures FetchEnds(old(Now()), old(slots), old(anons), k, offset, g, Valid(), r, Now())
      ensures old(log) <= log
    {
      hide *;
      Facts(k);
      ghost var s, slots0, ptes0, anons0 := Now(), slots, ptes, anons;
      var byte := UserExecute(k, offset);
      if byte == None {
        var resolved := HandlePageFault(k, FaultCode(k in ptes, false, true), g);
        if resolved {
          byte := UserExecute(k, offset);
        }
        FetchFaulted(s, slots0, ptes0, anons0, k, offset, g, Valid(), resolved, Now(), ptes, byte);
      } else {
        FetchMapped(s, slots0, ptes0, anons0, k, offset, g, byte);
      }
      r := if byte == None then Refused else Byte(byte.value);
    }

    /** A user store: try, take the fault if there is one, try again. */
    method UserStore(k: Key, offset: Offset, byte: bv8, g: Grant) returns (r: Outcome)
      requires Valid() && g.anon !in anons && g.frame !in memory
      modifies this
      ensures StoreEnds(old(Now()), old(slots), old(anons), k, offset, byte, g, Valid(), r, Now())
      ensures old(log) <= log
    {
      hide *;
      Facts(k);
      ghost var s, slots0, ptes0, anons0 := Now(), slots, ptes, anons;
      var ok := UserWrite(k, offset, byte);
      if ok {
        StoreMapped(s, slots0, ptes0, anons0, k, offset, byte, g, Now());
      } else {
        var present := k in ptes;
        var resolved := HandlePageFault(k, FaultCode(present, true, false), g);
        ghost var valid, s1 := Valid(), Now();
        if resolved {
          ok := UserWrite(k, offset, byte);
        }
        StoreFaulted(s, slots0, ptes0, anons0, k, offset, byte, g, valid, resolved, s1, ptes, ok, Now());
        if !valid {
          StillInvalid(g.anon);
        }
      }
      r := if ok then Done else Refused;
    }

    lemma StillInvalid(a: nat)
      requires a in anons && anons[a].frame == 0
      ensures !Valid()
    {
      NoFrame(slots, ptes, anons, memory, a);
    }
  }

  lemma FreshTwice(m: map<Key, Option<Page>>, k: Key, zero: bool, junk: Page)
    ensures m[k := Fresh(zero, false, ZeroPage())][k := Some(if zero then ZeroPage() else junk)] == m[k := Fresh(zero, true, junk)]
  {
  }

  lemma FreshEmpty(zero: bool, junk: Page)
    ensures Fresh(zero, false, ZeroPage()) == Fresh(zero, false, junk)
  {
  }

  lemma AnonLive(s: Memories, slots: map<Key, Slot>, ptes: map<Key, Pte>, anons: map<nat, Anon>, k: Key)
    requires PageFacts(s, slots, ptes, anons, k) && k in slots
    ensures slots[k].anon != 0 ==> slots[k].anon in anons
  {
  }

  lemma FaultRefused(s: Memories, slots: map<Key, Slot>, ptes: map<Key, Pte>, anons: map<nat, Anon>, k: Key, code: FaultCode, g: Grant)
    requires PageFacts(s, slots, ptes, anons, k) && (k in slots ==> !FaultValid(slots[k].flags.prot, code))
    ensures FaultEnds(s, slots, ptes, anons, k, code, g, true, false, s, ptes)
  {
  }

  lemma FaultCopied(s: Memories, slots: map<Key, Slot>, ptes: map<Key, Pte>, anons: map<nat, Anon>, k: Key, code: FaultCode, g: Grant,
                    ok: bool, ptes': map<Key, Pte>)
    requires PageFacts(s, slots, ptes, anons, k) && k in slots && FaultValid(slots[k].flags.prot, code) && code.write
    requires slots[k].anon in anons && anons[slots[k].anon].refCount > 1 && slots[k].anon != 0
    requires ok <==> g.anon != 0 && g.frame != 0 && slots[k].flags.prot.read
    requires ok ==> k in ptes' && ptes'[k].write == slots[k].flags.prot.write && ptes'[k].execute == slots[k].flags.prot.execute
    ensures FaultEnds(s, slots, ptes, anons, k, code, g, true, ok, s, ptes')
  {
  }

  lemma FaultMapped(s: Memories, slots: map<Key, Slot>, ptes: map<Key, Pte>, anons: map<nat, Anon>, k: Key, code: FaultCode, g: Grant,
                    ok: bool, ptes': map<Key, Pte>)
    requires PageFacts(s, slots, ptes, anons, k) && k in slots && FaultValid(slots[k].flags.prot, code)
    requires slots[k].anon in anons && slots[k].anon != 0 && (code.write ==> anons[slots[k].anon].refCount <= 1)
    requires ok == slots[k].flags.prot.read
    requires ok && (k in ptes || !code.present) ==>
      && k in ptes' && ptes'[k].write == (slots[k].flags.prot.write && anons[slots[k].anon].refCount == 1)
      && ptes'[k].execute == slots[k].flags.prot.execute
    ensures FaultEnds(s, slots, ptes, anons, k, code, g, true, ok, s, ptes')
  {
  }

  lemma FaultTouched(s: Memories, slots: map<Key, Slot>, ptes: map<Key, Pte>, anons: map<nat, Anon>, k: Key, code: FaultCode, g: Grant,
                     valid: bool, ok: bool, s': Memories, ptes': map<Key, Pte>)
    requires PageFacts(s, slots, ptes, anons, k) && k in slots && FaultValid(slots[k].flags.prot, code) && slots[k].anon == 0
    requires valid <==> g.anon == 0 || code.present || g.frame != 0
    requires valid ==> s' == if g.anon == 0 || code.present then s else s.(page := s.page[k := Some(if slots[k].flags.zero then ZeroPage() else g.junk)])
    requires ok <==> g.anon != 0 && !code.present && slots[k].flags.prot.read
    requires ok ==> k in ptes' && ptes'[k].write == slots[k].flags.prot.write && ptes'[k].execute == slots[k].flags.prot.execute
    ensures FaultEnds(s, slots, ptes, anons, k, code, g, valid, ok, s', ptes')
  {
    assert k in s.page && s.page[k].Some? ==> s.page[k := s.page[k]] == s.page;
  }

  lemma LoadMapped(s: Memories, slots: map<Key, Slot>, ptes: map<Key, Pte>, anons: map<nat, Anon>, k: Key, offset: Offset, g: Grant, byte: Option<bv8>)
    requires PageFacts(s, slots, ptes, anons, k) && k in ptes && byte.Some? && byte.value == Peek(s.page[k].value, offset)
    ensures LoadEnds(s, slots, anons, k, offset, g, true, Byte(byte.value), s)
  {
    assert s.page[k := s.page[k]] == s.page;
  }

  lemma LoadFaulted(s: Memories, slots: map<Key, Slot>, ptes: map<Key, Pte>, anons: map<nat, Anon>, k: Key, offset: Offset, g: Grant,
                    valid: bool, resolved: bool, s': Memories, ptes': map<Key, Pte>, byte: Option<bv8>)
    requires PageFacts(s, slots, ptes, anons, k) && k !in ptes
    requires FaultEnds(s, slots, ptes, anons, k, FaultCode(false, false, false), g, valid, resolved, s', ptes')
    requires byte.Some? <==> resolved && k in ptes'
    requires byte.Some? && valid ==> k in s'.page && s'.page[k].Some? && byte.value == Peek(s'.page[k].value, offset)
    ensures LoadEnds(s, slots, anons, k, offset, g, valid, if byte == None then Refused else Byte(byte.value), s')
  {
    assert k in s.page && s.page[k].Some? ==> s.page[k := s.page[k]] == s.page;
  }

  lemma FetchMapped(s: Memories, slots: map<Key, Slot>, ptes: map<Key, Pte>, anons: map<nat, Anon>, k: Key, offset: Offset, g: Grant, byte: Option<bv8>)
    requires PageFacts(s, slots, ptes, anons, k) && k in ptes && ptes[k].execute && byte.Some? && byte.value == Peek(s.page[k].value, offset)
    ensures FetchEnds(s, slots, anons, k, offset, g, true, Byte(byte.value), s)
  {
    assert s.page[k := s.page[k]] == s.page;
  }

  lemma FetchFaulted(s: Memories, slots: map<Key, Slot>, ptes: map<Key, Pte>, anons: map<nat, Anon>, k: Key, offset: Offset, g: Grant,
                     valid: bool, resolved: bool, s': Memories, ptes': map<Key, Pte>, byte: Option<bv8>)
    requires PageFacts(s, slots, ptes, anons, k) && !(k in ptes && ptes[k].execute)
    requires FaultEnds(s, slots, ptes, anons, k, FaultCode(k in ptes, false, true), g, valid, resolved, s', ptes')
    requires byte.Some? <==> resolved && k in ptes' && ptes'[k].execute
    requires byte.Some? && valid ==> k in s'.page && s'.page[k].Some? && byte.value == Peek(s'.page[k].value, offset)
    ensures FetchEnds(s, slots, anons, k, offset, g, valid, if byte == None then Refused else Byte(byte.value), s')
  {
    assert k in s.page && s.page[k].Some? ==> s.page[k := s.page[k]] == s.page;
  }

  lemma StoreMapped(s: Memories, slots: map<Key, Slot>, ptes: map<Key, Pte>, anons: map<nat, Anon>, k: Key, offset: Offset, byte: bv8, g: Grant, s': Memories)
    requires PageFacts(s, slots, ptes, anons, k) && k in ptes && ptes[k].write
    requires s' == s.(page := s.page[k := Some(Poke(s.page[k].value, offset, byte))])
    ensures StoreEnds(s, slots, anons, k, offset, byte, g, true, Done, s')
  {
  }

  lemma StoreFaulted(s: Memories, slots: map<Key, Slot>, ptes: map<Key, Pte>, anons: map<nat, Anon>, k: Key, offset: Offset, byte: bv8, g: Grant,
                     valid: bool, resolved: bool, s1: Memories, ptes': map<Key, Pte>, ok: bool, s': Memories)
    requires PageFacts(s, slots, ptes, anons, k) && !(k in ptes && ptes[k].write)
    requires FaultEnds(s, slots, ptes, anons, k, FaultCode(k in ptes, true, false), g, valid, resolved, s1, ptes')
    requires ok <==> resolved && k in ptes' && ptes'[k].write
    requires valid && ok ==> k in s1.page && s1.page[k].Some? && s' == s1.(page := s1.page[k := Some(Poke(s1.page[k].value, offset, byte))])
    requires valid && !ok ==> s' == s1
    ensures StoreEnds(s, slots, anons, k, offset, byte, g, valid, if ok then Done else Refused, s')
  {
    StoreFault(s, k, k in ptes, g.anon != 0, g.junk);
    hide Faulted, Filled, Poke;
  }

  /** The fault a store takes, in the private memories. */
  lemma StoreFault(s: Memories, k: Key, present: bool, anon: bool, junk: Page)
    requires (k in s.page <==> k in s.prot) && (present ==> k in s.page && s.page[k].Some?)
    ensures var s' := Faulted(s, k, FaultCode(present, true, false), anon, junk);
      && s' == Faulted(s, k, FaultCode(false, true, false), anon, junk)
      && (Allows(s, k, true) <==> k in s.page && s.prot[k].read && FaultValid(s.prot[k], FaultCode(present, true, false)))
      && (Allows(s, k, true) && (anon || s.page[k].Some?) ==> s' == s.(page := s.page[k := Some(Filled(s.page[k], junk))]))
      && Faulted(s, k, FaultCode(false, true, false), false, junk) == s
      && (!anon || (k in s.page && s.page[k].Some?) ==> s' == s)
  {
    assert k in s.page && s.page[k].Some? ==> s.page[k := s.page[k]] == s.page;
  }

  // ---------- Small facts the methods use ----------

  lemma SlotFrame(slots: map<Key, Slot>, ptes: map<Key, Pte>, anons: map<nat, Anon>, memory: map<nat, Page>, k: Key)
    requires Inv(slots, ptes, anons, memory) && k in slots && slots[k].anon in anons
    ensures anons[slots[k].anon].frame in memory && anons[slots[k].anon].frame != 0 && anons[slots[k].anon].refCount > 0
    ensures 0 !in memory
  {
  }

  lemma MappedFrames(slots: map<Key, Slot>, ptes: map<Key, Pte>, anons: map<nat, Anon>, memory: map<nat, Page>)
    requires Inv(slots, ptes, anons, memory)
    ensures forall k :: k in ptes ==> ptes[k].frame in memory
  {
    forall k | k in ptes ensures ptes[k].frame in memory {
      assert MappingSafe(k, ptes[k], slots, anons);
    }
  }

  /** A page that was never touched has no mapping. */
  lemma NotMapped(slots: map<Key, Slot>, ptes: map<Key, Pte>, anons: map<nat, Anon>, memory: map<nat, Page>, k: Key)
    requires Inv(slots, ptes, anons, memory) && k in slots && slots[k].anon == 0
    ensures k !in ptes
  {
    assert k in ptes ==> MappingSafe(k, ptes[k], slots, anons);
  }

  lemma TouchMapped(slots: map<Key, Slot>, ptes: map<Key, Pte>, anons: map<nat, Anon>, memory: map<nat, Page>, k: Key)
    requires Inv(slots, ptes, anons, memory) && k in slots && slots[k].anon in anons && anons[slots[k].anon].refCount == 1 && slots[k].flags.prot.read
    ensures Inv(slots, ptes[k := Pte(anons[slots[k].anon].frame, slots[k].flags.prot.write, slots[k].flags.prot.execute)], anons, memory)
  {
    var ptes' := ptes[k := Pte(anons[slots[k].anon].frame, slots[k].flags.prot.write, slots[k].flags.prot.execute)];
    forall j | j in ptes' ensures MappingSafe(j, ptes'[j], slots, anons) {
      if j != k {
        assert MappingSafe(j, ptes[j], slots, anons);
      }
    }
  }

  lemma NoFrame(slots: map<Key, Slot>, ptes: map<Key, Pte>, anons: map<nat, Anon>, memory: map<nat, Page>, a: nat)
    requires a in anons && anons[a].frame == 0
    ensures !Inv(slots, ptes, anons, memory)
  {
  }

  lemma SameProts(slots: map<Key, Slot>, k: Key, slot: Slot)
    ensures ProtsOf(slots[k := slot]) == ProtsOf(slots)[k := slot.flags.prot]
    ensures k in slots && slots[k].flags.prot == slot.flags.prot ==> ProtsOf(slots[k := slot]) == ProtsOf(slots)
  {
  }

  lemma SharedProts(slots: map<Key, Slot>, k: Key, c: Key)
    requires k in slots
    ensures ProtsOf(SharedSlots(slots, k, c)) == ProtsOf(slots)[c := ProtsOf(slots)[k]]
  {
  }

  lemma DroppedProts(slots: map<Key, Slot>, k: Key)
    ensures ProtsOf(slots - {k}) == ProtsOf(slots) - {k}
  {
  }

  lemma KeysOf(slots: map<Key, Slot>, anons: map<nat, Anon>, memory: map<nat, Page>)
    ensures FlatOf(slots, anons, memory).Keys == slots.Keys && ProtsOf(slots).Keys == slots.Keys
  {
  }

  lemma OnlyReader(slots: map<Key, Slot>, ptes: map<Key, Pte>, anons: map<nat, Anon>, memory: map<nat, Page>, k: Key)
    requires Inv(slots, ptes, anons, memory) && k in slots
    ensures var a := slots[k].anon; a in anons ==> (anons[a].refCount == 1 <==> Refs(slots, a) == {k})
    ensures slots[k].anon == 0 ==> 0 !in anons
  {
    var a := slots[k].anon;
    if a in anons && anons[a].refCount == 1 {
      forall j | j in Refs(slots, a) ensures j == k {
        OneReference(slots, anons, k, j);
      }
      assert k in Refs(slots, a);
    }
  }

  /** The frames that are left are those that slots still read. */
  lemma FramesLeft(slots0: map<Key, Slot>, anons0: map<nat, Anon>, slots: map<Key, Slot>, ptes: map<Key, Pte>, anons: map<nat, Anon>,
                   memory: map<nat, Page>, space: nat)
    requires Inv(slots, ptes, anons, memory)
    requires forall k :: k in slots <==> k in slots0 && k.0 != space
    requires forall k :: k in slots ==> slots[k] == slots0[k]
    requires 0 !in anons0 && forall a :: a in anons ==> a in anons0 && anons[a].frame == anons0[a].frame
    ensures forall f: nat :: f in memory <==>
      exists j :: j in slots0 && j.0 != space && slots0[j].anon in anons0 && anons0[slots0[j].anon].frame == f
  {
    forall f: nat ensures f in memory <==>
      exists j :: j in slots0 && j.0 != space && slots0[j].anon in anons0 && anons0[slots0[j].anon].frame == f
    {
      LiveFrames(slots, anons, memory, f);
      if j :| j in slots0 && j.0 != space && slots0[j].anon in anons0 && anons0[slots0[j].anon].frame == f {
        assert j in slots;
        SlotLive(slots, anons, j);
      }
    }
  }

  /** What a slot's page is in the private memories, and which accesses go through. */
  lemma Permitted(slots: map<Key, Slot>, ptes: map<Key, Pte>, anons: map<nat, Anon>, memory: map<nat, Page>, k: Key)
    requires Inv(slots, ptes, anons, memory)
    ensures k in ptes ==> ptes[k].frame in memory
    ensures PageFacts(Memories(FlatOf(slots, anons, memory), ProtsOf(slots)), slots, ptes, anons, k)
  {
    if k in ptes {
      assert MappingSafe(k, ptes[k], slots, anons);
    }
    if k in slots && slots[k].anon != 0 {
      SlotLive(slots, anons, k);
    }
  }

  /** One more page of a fork. */
  lemma ForkedOne<T>(m: map<Key, T>, child: nat, parent: nat, done: set<nat>, v: nat)
    requires child != parent && (parent, v) in m
    ensures (parent, v) in ForkedPages(m, child, parent, done)
    ensures var m' := ForkedPages(m, child, parent, done);
      m'[(child, v) := m'[(parent, v)]] == ForkedPages(m, child, parent, done + {v})
  {
  }

  /** What the loop of Fork has done when `todo` is left. */
  ghost predicate Forking(s0: Memories, keys: set<Key>, s: Memories, now: set<Key>, mapped: set<Key>, child: nat, parent: nat, pages: set<nat>, todo: set<nat>) {
    && child != parent && todo <= pages
    && (forall v :: v in pages ==> (parent, v) in keys) && (forall v :: (child, v) !in keys && (child, v) !in mapped)
    && s0.page.Keys == s0.prot.Keys == keys
    && (forall k :: k in now <==> k in keys || (k.0 == child && k.1 in pages - todo))
    && s == Memories(ForkedPages(s0.page, child, parent, pages - todo), ForkedPages(s0.prot, child, parent, pages - todo))
  }

  lemma ForkingStart(s0: Memories, keys: set<Key>, mapped: set<Key>, child: nat, parent: nat, pages: set<nat>)
    requires child != parent && s0.page.Keys == s0.prot.Keys == keys
    requires (forall v :: v in pages ==> (parent, v) in keys) && (forall v: nat :: (child, v) !in keys && (child, v) !in mapped)
    ensures Forking(s0, keys, s0, keys, mapped, child, parent, pages, pages)
  {
    assert pages - pages == {};
  }

  /** The next page; the state is the one ForkSlot leaves. */
  lemma ForkingNext(s0: Memories, keys: set<Key>, s: Memories, now: set<Key>, mapped: set<Key>, child: nat, parent: nat, pages: set<nat>, todo: set<nat>, v: nat)
    requires Forking(s0, keys, s, now, mapped, child, parent, pages, todo) && v in todo
    ensures (parent, v) in now && (child, v) !in now && (child, v) !in mapped && (parent, v) in s.page && (parent, v) in s.prot
    ensures Forking(s0, keys, Memories(s.page[(child, v) := s.page[(parent, v)]], s.prot[(child, v) := s.prot[(parent, v)]]),
                    now + {(child, v)}, mapped, child, parent, pages, todo - {v})
  {
    ForkedOne(s0.page, child, parent, pages - todo, v);
    ForkedOne(s0.prot, child, parent, pages - todo, v);
    assert pages - (todo - {v}) == pages - todo + {v};
    hide ForkedPages;
  }

  lemma ForkingDone(s0: Memories, keys: set<Key>, s: Memories, now: set<Key>, mapped: set<Key>, child: nat, parent: nat, pages: set<nat>)
    requires Forking(s0, keys, s, now, mapped, child, parent, pages, {})
    ensures s == Memories(ForkedPages(s0.page, child, parent, pages), ForkedPages(s0.prot, child, parent, pages))
  {
    assert pages - {} == pages;
  }

  /** What the loop of Delete has done when `todo` is left. */
  ghost predicate Deleting(s0: Memories, slots0: map<Key, Slot>, anons0: map<nat, Anon>, log0: seq<Call>,
                           s: Memories, slots: map<Key, Slot>, anons: map<nat, Anon>, log: seq<Call>, space: nat, todo: set<Key>) {
    && (forall k :: k in todo ==> k in slots && k.0 == space)
    && (forall k :: k in slots <==> k in slots0 && (k.0 == space ==> k in todo))
    && (forall k :: k in slots ==> slots[k] == slots0[k])
    && 0 !in anons0 && (forall a :: a in anons ==> a in anons0 && anons[a].frame == anons0[a].frame)
    && log0 <= log && s0.page.Keys == s0.prot.Keys == slots0.Keys && s.page.Keys == s.prot.Keys == slots.Keys
    && (forall k :: k in slots ==> s.page[k] == s0.page[k] && s.prot[k] == s0.prot[k])
  }

  lemma DeletingStart(slots: map<Key, Slot>, ptes: map<Key, Pte>, anons: map<nat, Anon>, memory: map<nat, Page>, log: seq<Call>, space: nat)
    requires Inv(slots, ptes, anons, memory)
    ensures var s := Memories(FlatOf(slots, anons, memory), ProtsOf(slots));
      Deleting(s, slots, anons, log, s, slots, anons, log, space, set k | k in slots && k.0 == space)
  {
  }

  lemma DeletingKey(s0: Memories, slots0: map<Key, Slot>, anons0: map<nat, Anon>, log0: seq<Call>,
                    s: Memories, slots: map<Key, Slot>, anons: map<nat, Anon>, log: seq<Call>, space: nat, todo: set<Key>, k: Key)
    requires Deleting(s0, slots0, anons0, log0, s, slots, anons, log, space, todo) && k in todo
    ensures k in slots
  {
  }

  lemma DeletingNext(s0: Memories, slots0: map<Key, Slot>, anons0: map<nat, Anon>, log0: seq<Call>,
                     s: Memories, slots: map<Key, Slot>, anons: map<nat, Anon>, log: seq<Call>,
                     s': Memories, slots': map<Key, Slot>, anons': map<nat, Anon>, log': seq<Call>, space: nat, todo: set<Key>, k: Key)
    requires Deleting(s0, slots0, anons0, log0, s, slots, anons, log, space, todo) && k in todo
    requires slots' == slots - {k} && s' == Memories(s.page - {k}, s.prot - {k}) && log <= log'
    requires forall a :: a in anons' ==> a in anons && anons'[a].frame == anons[a].frame
    ensures Deleting(s0, slots0, anons0, log0, s', slots', anons', log', space, todo - {k})
  {
  }

  lemma DeletingDone(s0: Memories, slots0: map<Key, Slot>, anons0: map<nat, Anon>, log0: seq<Call>,
                     slots: map<Key, Slot>, ptes: map<Key, Pte>, anons: map<nat, Anon>, memory: map<nat, Page>, log: seq<Call>, space: nat)
    requires Inv(slots, ptes, anons, memory)
    requires Deleting(s0, slots0, anons0, log0, Memories(FlatOf(slots, anons, memory), ProtsOf(slots)), slots, anons, log, space, {})
    ensures log0 <= log
    ensures Memories(FlatOf(slots, anons, memory), ProtsOf(slots)) == Memories(WithoutSpace(s0.page, space), WithoutSpace(s0.prot, space))
    ensures forall f: nat :: f in memory <==>
      exists j :: j in slots0 && j.0 != space && slots0[j].anon in anons0 && anons0[slots0[j].anon].frame == f
  {
    FramesLeft(slots0, anons0, slots, ptes, anons, memory, space);
    hide Inv, FlatOf, ProtsOf;
  }

  lemma NoMappings(slots: map<Key, Slot>, ptes: map<Key, Pte>, anons: map<nat, Anon>, memory: map<nat, Page>, space: nat)
    requires Inv(slots, ptes, anons, memory) && forall k :: k in slots ==> k.0 != space
    ensures forall k :: k in ptes ==> k.0 != space
  {
    forall k | k in ptes ensures k.0 != space {
      assert MappingSafe(k, ptes[k], slots, anons);
    }
  }

  /** A change to the frame of an anon with one reference is seen through that reference only. */
  lemma SoleReader(slots: map<Key, Slot>, anons: map<nat, Anon>, m: map<nat, Page>, m': map<nat, Page>, k: Key)
    requires Counted(slots, anons) && Framed(anons, m) && k in slots && slots[k].anon in anons && anons[slots[k].anon].refCount == 1
    requires m'.Keys == m.Keys && forall f :: f in m && f != anons[slots[k].anon].frame ==> m'[f] == m[f]
    ensures Framed(anons, m')
    ensures FlatOf(slots, anons, m') == FlatOf(slots, anons, m)[k := Some(m'[anons[slots[k].anon].frame])]
  {
    forall j | j in slots && j != k ensures Content(slots[j], anons, m') == Content(slots[j], anons, m) {
      if slots[j].anon != 0 {
        SlotLive(slots, anons, j);
        if slots[j].anon == slots[k].anon {
          OneReference(slots, anons, k, j);
        }
      }
    }
  }
}
