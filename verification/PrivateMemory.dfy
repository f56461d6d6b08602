/** Address spaces that share nothing: the reference that copy-on-write is compared with. */
module PrivateMemory {
  import opened Basics

  const PAGE_SIZE := 4096

  type Page = s: seq<bv8> | |s| == PAGE_SIZE witness seq(PAGE_SIZE, _ => 0)

  type Offset = n: nat | n < PAGE_SIZE

  function ZeroPage(): Page { seq(PAGE_SIZE, _ => 0) }

  function Peek(page: Page, offset: Offset): bv8 { page[offset] }

  function Poke(page: Page, offset: Offset, byte: bv8): Page { page[offset := byte] }

  /** An address space and a page number in it. */
  type Key = (nat, nat)

  datatype Prot = Prot(read: bool, write: bool, execute: bool)

  datatype FaultCode = FaultCode(present: bool, write: bool, execute: bool)

  /** The check of HandlePageFault that the access is one the entry's protection allows. */
  predicate FaultValid(prot: Prot, code: FaultCode) {
    match prot
    case Prot(true, false, false) => !code.write && !code.execute
    case Prot(false, true, false) => code.write && !code.execute
    case Prot(false, false, true) => code.execute
    case Prot(true, true, false) => !code.execute
    case Prot(true, false, true) => !code.write
    case Prot(true, true, true) => true
    case _ => false
  }

  /** What every page of every address space holds, None for one whose first contents are still open, and its protection. */
  datatype Memories = Memories(page: map<Key, Option<Page>>, prot: map<Key, Prot>)

  /** Whether the two allocators can serve an event, and what a fresh frame holds. */
  datatype Supply = Supply(anon: bool, frame: bool, junk: Page)

  datatype Event =
    | Map(k: Key, prot: Prot, zero: bool, phys: bool, supply: Supply)
    | Load(k: Key, offset: Offset, supply: Supply)
    | Fetch(k: Key, offset: Offset, supply: Supply)  // of an instruction
    | Store(k: Key, offset: Offset, byte: bv8, supply: Supply)
    | Fault(k: Key, code: FaultCode, supply: Supply)
    | Forked(child: nat, parent: nat, pages: set<nat>)  // the pages reached before an allocation fails
    | Deleted(space: nat)

  datatype Outcome = Done | Byte(value: bv8) | Refused

  /** The contents of a page once it is touched. */
  function Filled(page: Option<Page>, junk: Page): Page {
    if page.Some? then page.value else junk
  }

  function Fresh(zero: bool, phys: bool, junk: Page): Option<Page> {
    if zero then Some(ZeroPage()) else if phys then Some(junk) else None
  }

  predicate Allows(s: Memories, k: Key, write: bool) {
    k in s.page && k in s.prot && s.prot[k].read && (write ==> s.prot[k].write)
  }

  predicate AllowsFetch(s: Memories, k: Key) {
    Allows(s, k, false) && s.prot[k].execute
  }

  /** Of the six protections, the check lets through exactly the accesses that the protection names. */
  lemma FaultAccess(prot: Prot, code: FaultCode)
    requires !(code.write && code.execute) && prot != Prot(false, true, true)
    ensures FaultValid(prot, code) <==> if code.write then prot.write else if code.execute then prot.execute else prot.read
  {
  }

  /** A fault fills a page whose contents are open, if the access is allowed and an anon is left for it. */
  function Faulted(s: Memories, k: Key, code: FaultCode, anon: bool, junk: Page): Memories {
    if k in s.page && s.page[k].None? && k in s.prot && FaultValid(s.prot[k], code) && !code.present && anon
    then s.(page := s.page[k := Some(junk)]) else s
  }

  ghost predicate Used(s: Memories, space: nat) {
    exists k :: k in s.page && k.0 == space
  }

  function ForkedPages<T>(m: map<Key, T>, child: nat, parent: nat, pages: set<nat>): map<Key, T> {
    m + map v | v in pages && (parent, v) in m :: (child, v) := m[(parent, v)]
  }

  function WithoutSpace<T>(m: map<Key, T>, space: nat): map<Key, T> {
    map k | k in m && k.0 != space :: m[k]
  }

  /** One event. */
  ghost function Step(s: Memories, e: Event): Memories {
    match e
    case Map(k, prot, zero, phys, supply) =>
      if k in s.page then s else Memories(s.page[k := Fresh(zero, phys, supply.junk)], s.prot[k := prot])
    case Load(k, _, supply) =>
      if Allows(s, k, false) then s.(page := s.page[k := Some(Filled(s.page[k], supply.junk))]) else s
    case Fetch(k, _, supply) =>
      if AllowsFetch(s, k) then s.(page := s.page[k := Some(Filled(s.page[k], supply.junk))])
      else Faulted(s, k, FaultCode(false, false, true), supply.anon, supply.junk)
    case Store(k, offset, byte, supply) =>
      if Allows(s, k, true) then s.(page := s.page[k := Some(Poke(Filled(s.page[k], supply.junk), offset, byte))])
      else Faulted(s, k, FaultCode(false, true, false), supply.anon, supply.junk)
    case Fault(k, code, supply) => Faulted(s, k, code, supply.anon, supply.junk)
    case Forked(child, parent, pages) =>
      if child == parent || Used(s, child) then s
      else Memories(ForkedPages(s.page, child, parent, pages), ForkedPages(s.prot, child, parent, pages))
    case Deleted(space) => Memories(WithoutSpace(s.page, space), WithoutSpace(s.prot, space))
  }

  /** What the program sees of it. */
  function Seen(s: Memories, e: Event): Outcome {
    match e
    case Load(k, offset, supply) => if Allows(s, k, false) then Byte(Peek(Filled(s.page[k], supply.junk), offset)) else Refused
    case Fetch(k, offset, supply) => if AllowsFetch(s, k) then Byte(Peek(Filled(s.page[k], supply.junk), offset)) else Refused
    case Store(k, _, _, _) => if Allows(s, k, true) then Done else Refused
    case _ => Done
  }

  /** An access for which an allocator might fail. */
  predicate Starved(e: Event) {
    (e.Load? || e.Fetch? || e.Store?) && !(e.supply.anon && e.supply.frame)
  }

  /** The event happens as above; only a starved access may be refused instead, and then nothing changes. */
  ghost predicate Steps(s: Memories, e: Event, r: Outcome, s': Memories) {
    (s' == Step(s, e) && r == Seen(s, e)) || (Starved(e) && s' == s && r == Refused)
  }

  // ---------- Runs ----------

  ghost predicate IsRun(states: seq<Memories>, script: seq<Event>, seen: seq<Outcome>) {
    && |states| == |script| + 1 && |seen| == |script|
    && forall n :: 0 <= n < |script| ==> Steps(states[n], script[n], seen[n], states[n + 1])
  }

  /** The states of a run in which no access is starved. */
  ghost function States(s: Memories, script: seq<Event>): seq<Memories>
    decreases |script|
  {
    if script == [] then [s] else [s] + States(Step(s, script[0]), script[1..])
  }

  /** Such a run is determined by its start: every state, and all that the programs see. */
  lemma {:induction false} Determined(states: seq<Memories>, script: seq<Event>, seen: seq<Outcome>)
    requires IsRun(states, script, seen) && forall n :: 0 <= n < |script| ==> !Starved(script[n])
    ensures states == States(states[0], script)
    ensures forall n :: 0 <= n < |script| ==> seen[n] == Seen(states[n], script[n])
    decreases |script|
  {
    hide Step, Seen;
    if script != [] {
      assert Steps(states[0], script[0], seen[0], states[1]);
      Determined(states[1..], script[1..], seen[1..]);
      assert states == [states[0]] + states[1..];
      forall n | 0 <= n < |script| ensures seen[n] == Seen(states[n], script[n]) {
        if n > 0 {
          assert seen[n] == seen[1..][n - 1] && script[n] == script[1..][n - 1] && states[n] == states[1..][n - 1];
        }
      }
    }
  }

  /** The address space an event changes. */
  function Actor(e: Event): nat {
    match e
    case Map(k, _, _, _, _) => k.0
    case Load(k, _, _) => k.0
    case Fetch(k, _, _) => k.0
    case Store(k, _, _, _) => k.0
    case Fault(k, _, _) => k.0
    case Forked(child, _, _) => child
    case Deleted(space) => space
  }

  lemma StepIsolated(s: Memories, e: Event, r: Outcome, s': Memories, k: Key)
    requires Steps(s, e, r, s') && Actor(e) != k.0
    ensures (k in s'.page <==> k in s.page) && (k in s.page ==> s'.page[k] == s.page[k])
  {
  }

  /** Whatever the others do, an address space that does nothing keeps its memory. */
  lemma {:induction false} Isolation(states: seq<Memories>, script: seq<Event>, seen: seq<Outcome>, i: nat, j: nat, k: Key)
    requires IsRun(states, script, seen) && i <= j <= |script|
    requires forall n :: i <= n < j ==> Actor(script[n]) != k.0
    ensures (k in states[j].page <==> k in states[i].page) && (k in states[i].page ==> states[j].page[k] == states[i].page[k])
    decreases j
  {
    hide Steps;
    if i < j {
      Isolation(states, script, seen, i, j - 1, k);
      StepIsolated(states[j - 1], script[j - 1], seen[j - 1], states[j], k);
    }
  }

  /** A child that has done nothing since its fork reads, at any later time, what the parent read at the fork. */
  lemma ForkedCopy(states: seq<Memories>, script: seq<Event>, seen: seq<Outcome>, i: nat, j: nat, v: nat)
    requires IsRun(states, script, seen) && i < j <= |script| && script[i].Forked?
    requires script[i].child != script[i].parent && !Used(states[i], script[i].child)
    requires forall n :: i < n < j ==> Actor(script[n]) != script[i].child
    requires v in script[i].pages && (script[i].parent, v) in states[i].page
    ensures (script[i].child, v) in states[j].page && states[j].page[(script[i].child, v)] == states[i].page[(script[i].parent, v)]
  {
    assert Steps(states[i], script[i], seen[i], states[i + 1]);
    Isolation(states, script, seen, i + 1, j, (script[i].child, v));
  }
}
