/** Runs of kernel/src/Memory/VMM.cpp against address spaces that share nothing. */
module CopyOnWriteRuns {
  import opened Basics
  import opened PrivateMemory
  import opened CopyOnWrite

  function Granted(supply: Supply, a: nat, f: nat): Grant {
    Grant(if supply.anon then a else 0, if supply.frame then f else 0, supply.junk)
  }

  /** A first touch that gets an anon but no frame: the source goes on with frame 0. A page filled at once needs both: the source tests neither. */
  predicate Breaks(slots: map<Key, Slot>, e: Event) {
    match e
    case Map(k, _, _, phys, supply) => k !in slots && phys && !(supply.anon && supply.frame)
    case Load(k, _, supply) => FirstTouch(slots, k, FaultCode(false, false, false)) && supply.anon && !supply.frame
    case Fetch(k, _, supply) => FirstTouch(slots, k, FaultCode(false, false, true)) && supply.anon && !supply.frame
    case Store(k, _, _, supply) => FirstTouch(slots, k, FaultCode(false, true, false)) && supply.anon && !supply.frame
    case Fault(k, code, supply) => FirstTouch(slots, k, code) && supply.anon && !supply.frame
    case _ => false
  }

  /** An allowed access that needs a page of its own and does not get it. */
  predicate Short(slots: map<Key, Slot>, anons: map<nat, Anon>, e: Event) {
    && Starved(e) && Needs(slots, anons, e.k, e.Store?)
    && slots[e.k].flags.prot.read && (e.Store? ==> slots[e.k].flags.prot.write) && (e.Fetch? ==> slots[e.k].flags.prot.execute)
  }

  /**
   * One event; `a` and `f` are what the allocators return if they are asked and can serve it. The private memories and
   * what the program sees change as those of spaces that share nothing, but for an access that is short of memory.
   */
  method Perform(w: AddressSpaces, e: Event, a: nat, f: nat) returns (r: Outcome)
    requires w.Valid() && a != 0 && a !in w.anons && f != 0 && f !in w.memory
    modifies w
    ensures w.Valid() <==> !Breaks(old(w.slots), e)
    ensures old(w.log) <= w.log
    ensures w.Valid() ==> Steps(old(w.Now()), e, r, w.Now())
    ensures w.Valid() ==> (r != Seen(old(w.Now()), e) <==> Short(old(w.slots), old(w.anons), e))
  {
    hide *;
    match e
    case Load(_, _, _) => r := Access(w, e, a, f);
    case Fetch(_, _, _) => r := Access(w, e, a, f);
    case Store(_, _, _, _) => r := Access(w, e, a, f);
    case Fault(_, _, _) => r := TakeFault(w, e, a, f);
    case Map(_, _, _, _, _) => r := AddPage(w, e, a, f);
    case Forked(_, _, _) => r := ForkOrDelete(w, e); Never(e, old(w.slots), old(w.anons), old(w.Now()), w.Now());
    case Deleted(_) => r := ForkOrDelete(w, e); Never(e, old(w.slots), old(w.anons), old(w.Now()), w.Now());
  }

  lemma Never(e: Event, slots: map<Key, Slot>, anons: map<nat, Anon>, s: Memories, s': Memories)
    requires (e.Forked? || e.Deleted?) && s' == Step(s, e)
    ensures !Breaks(slots, e) && !Short(slots, anons, e) && Seen(s, e) == Done && Steps(s, e, Done, s')
  {
  }

  method Access(w: AddressSpaces, e: Event, a: nat, f: nat) returns (r: Outcome)
    requires e.Load? || e.Fetch? || e.Store?
    requires w.Valid() && a != 0 && a !in w.anons && f != 0 && f !in w.memory
    modifies w
    ensures w.Valid() <==> !Breaks(old(w.slots), e)
    ensures old(w.log) <= w.log
    ensures w.Valid() ==> Steps(old(w.Now()), e, r, w.Now())
    ensures w.Valid() ==> (r != Seen(old(w.Now()), e) <==> Short(old(w.slots), old(w.anons), e))
  {
    EventKey(w.slots, w.ptes, w.anons, w.memory);
    hide Inv, Ledger, FlatOf, ProtsOf, Refs, FaultValid;
    if e.Load? {
      r := w.UserLoad(e.k, e.offset, Granted(e.supply, a, f));
    } else if e.Fetch? {
      r := w.UserFetch(e.k, e.offset, Granted(e.supply, a, f));
    } else {
      r := w.UserStore(e.k, e.offset, e.byte, Granted(e.supply, a, f));
    }
  }

  method TakeFault(w: AddressSpaces, e: Event, a: nat, f: nat) returns (r: Outcome)
    requires e.Fault?
    requires w.Valid() && a != 0 && a !in w.anons && f != 0 && f !in w.memory
    modifies w
    ensures w.Valid() <==> !Breaks(old(w.slots), e)
    ensures old(w.log) <= w.log
    ensures w.Valid() ==> Steps(old(w.Now()), e, r, w.Now())
    ensures w.Valid() ==> (r != Seen(old(w.Now()), e) <==> Short(old(w.slots), old(w.anons), e))
  {
    EventKey(w.slots, w.ptes, w.anons, w.memory);
    hide Inv, Ledger, FlatOf, ProtsOf, Refs, FaultValid;
    var _ := w.HandlePageFault(e.k, e.code, Granted(e.supply, a, f));
    r := Done;
  }

  method AddPage(w: AddressSpaces, e: Event, a: nat, f: nat) returns (r: Outcome)
    requires e.Map?
    requires w.Valid() && a != 0 && a !in w.anons && f != 0 && f !in w.memory
    modifies w
    ensures w.Valid() <==> !Breaks(old(w.slots), e)
    ensures old(w.log) <= w.log
    ensures w.Valid() ==> Steps(old(w.Now()), e, r, w.Now())
    ensures w.Valid() ==> (r != Seen(old(w.Now()), e) <==> Short(old(w.slots), old(w.anons), e))
  {
    EventKey(w.slots, w.ptes, w.anons, w.memory);
    hide Inv, Ledger, FlatOf, ProtsOf;
    if e.k !in w.slots {
      w.AddSlot(e.k, e.prot, e.zero, e.phys, Granted(e.supply, a, f));
    }
    r := Done;
  }

  method ForkOrDelete(w: AddressSpaces, e: Event) returns (r: Outcome)
    requires w.Valid() && (e.Forked? || e.Deleted?)
    modifies w
    ensures w.Valid() && old(w.log) <= w.log && w.Now() == Step(old(w.Now()), e) && r == Done
  {
    hide Inv, Ledger, FlatOf, ProtsOf, ForkedPages, WithoutSpace;
    EventKey(w.slots, w.ptes, w.anons, w.memory);
    r := Done;
    if e.Deleted? {
      w.Delete(e.space);
    } else if e.child != e.parent && forall k :: k in w.slots ==> k.0 != e.child {
      var reached := set v | v in e.pages && (e.parent, v) in w.slots;
      ForkedSame(w.Now().page, e.child, e.parent, e.pages, reached);
      ForkedSame(w.Now().prot, e.child, e.parent, e.pages, reached);
      w.Fork(e.child, e.parent, reached);
    }
  }

  /** The allocators return fresh objects: here, for the `n`th event, from what is in use. */
  ghost predicate Serves(pick: (nat, set<nat>) -> nat) {
    forall n: nat, used: set<nat> :: pick(n, used) != 0 && pick(n, used) !in used
  }

  /** The slots, anons and frames of a state. */
  datatype World = World(slots: map<Key, Slot>, anons: map<nat, Anon>, memory: map<nat, Page>)

  /** The private memories they come to. */
  function Flattened(w: World): Memories {
    Memories(FlatOf(w.slots, w.anons, w.memory), ProtsOf(w.slots))
  }

  /**
   * Any run, for any behaviour of the allocators: it goes on until a page is touched without the frame, or filled without the
   * anon and the frame, that it needs. Every state and everything the programs see are those of spaces that share nothing,
   * but for exactly the accesses that are short of memory; if no access is starved the run is determined by the script
   * alone. The calls of the physical memory manager stay legal.
   */
  method Run(w: AddressSpaces, script: seq<Event>, anonFor: (nat, set<nat>) -> nat, frameFor: (nat, set<nat>) -> nat)
    returns (n: nat, seen: seq<Outcome>, ghost states: seq<Memories>, ghost worlds: seq<World>)
    requires w.Valid() && Serves(anonFor) && Serves(frameFor)
    modifies w
    ensures w.Valid() && old(w.log) <= w.log
    ensures n <= |script| && IsRun(states, script[..n], seen) && states[0] == old(w.Now()) && states[n] == w.Now()
    ensures n < |script| ==> Breaks(w.slots, script[n])
    ensures |worlds| == |states| && forall i :: 0 <= i <= n ==> states[i] == Flattened(worlds[i])
    ensures forall i :: 0 <= i < n ==> !Breaks(worlds[i].slots, script[i])
    ensures forall i :: 0 <= i < n ==> (seen[i] != Seen(states[i], script[i]) <==> Short(worlds[i].slots, worlds[i].anons, script[i]))
    ensures (forall i :: 0 <= i < n ==> !Starved(script[i])) ==>
      states == States(old(w.Now()), script[..n]) && forall i :: 0 <= i < n ==> seen[i] == Seen(states[i], script[i])
  {
    hide Breaks, Steps, Inv, Ledger, FlatOf, ProtsOf, Seen, Short;
    n, seen, states, worlds := 0, [], [w.Now()], [World(w.slots, w.anons, w.memory)];
    while n < |script| && !Breaks(w.slots, script[n])
      invariant w.Valid() && old(w.log) <= w.log
      invariant n <= |script| && |states| == n + 1 && |seen| == n && states[0] == old(w.Now()) && states[n] == w.Now()
      invariant forall i :: 0 <= i < n ==> Steps(states[i], script[i], seen[i], states[i + 1])
      invariant |worlds| == n + 1 && worlds[n] == World(w.slots, w.anons, w.memory) && forall i :: 0 <= i <= n ==> states[i] == Flattened(worlds[i])
      invariant forall i :: 0 <= i < n ==> !Breaks(worlds[i].slots, script[i])
      invariant forall i :: 0 <= i < n ==> (seen[i] != Seen(states[i], script[i]) <==> Short(worlds[i].slots, worlds[i].anons, script[i]))
    {
      var r := Perform(w, script[n], anonFor(n, w.anons.Keys), frameFor(n, w.memory.Keys));
      n, seen, states, worlds := n + 1, seen + [r], states + [w.Now()], worlds + [World(w.slots, w.anons, w.memory)];
    }
    if forall i :: 0 <= i < n ==> !Starved(script[i]) {
      Determined(states, script[..n], seen);
    }
  }

  // ---------- A first touch without a frame ----------

  /** A run that breaks off: a new page is to be filled at once, there is an anon but no frame, and it is given frame 0. */
  method TouchWithoutFrame(junk: Page) returns (w: AddressSpaces)
    ensures !w.Valid() && (0, 0) in w.slots && w.slots[(0, 0)].anon == 1 && 1 in w.anons && w.anons[1].frame == 0
  {
    hide Inv, Ledger, FlatOf, ProtsOf;
    w := new AddressSpaces();
    w.AddSlot((0, 0), Prot(true, true, false), true, true, Grant(1, 0, junk));
  }

  /** Two pages touched like this share frame 0: what one address space stores the other reads. */
  lemma FrameZeroShared(slots: map<Key, Slot>, anons: map<nat, Anon>, memory: map<nat, Page>, k: Key, j: Key, offset: Offset, byte: bv8)
    requires k in slots && j in slots && slots[k].anon != 0 && slots[j].anon != 0 && slots[k].anon in anons && slots[j].anon in anons
    requires anons[slots[k].anon].frame == anons[slots[j].anon].frame == 0 && 0 in memory
    ensures FlatOf(slots, anons, memory[0 := Poke(memory[0], offset, byte)])[j] == Some(Poke(memory[0], offset, byte))
  {
  }

  lemma EventKey(slots: map<Key, Slot>, ptes: map<Key, Pte>, anons: map<nat, Anon>, memory: map<nat, Page>)
    requires Inv(slots, ptes, anons, memory)
    ensures 0 !in anons && 0 !in memory && FlatOf(slots, anons, memory).Keys == ProtsOf(slots).Keys == slots.Keys
    ensures forall k :: k in slots ==> ProtsOf(slots)[k] == slots[k].flags.prot
    ensures forall k :: k in slots && FlatOf(slots, anons, memory)[k].None? ==> slots[k].anon == 0
  {
    forall k | k in slots && slots[k].anon != 0 ensures FlatOf(slots, anons, memory)[k].Some? {
      SlotLive(slots, anons, k);
    }
  }

  /** Pages the parent does not have do not matter. */
  lemma ForkedSame<T>(m: map<Key, T>, child: nat, parent: nat, pages: set<nat>, reached: set<nat>)
    requires forall v :: v in reached <==> v in pages && (parent, v) in m
    ensures ForkedPages(m, child, parent, reached) == ForkedPages(m, child, parent, pages)
  {
  }
}
