/** The global half of kernel/src/arch/x86_64/interrupts/NMI.cpp: Raise with waiting and x86_64_HandleNMI. */
module Shootdown {

  // The steps of N processors over one request record. Every access to the record is a step of its own.

  /** The pages a request invalidates. */
  datatype Range = Range(start: nat, count: nat)

  /** Where a processor is in Raise. Set(k) has done the first k assignments of SetData. */
  datatype Raiser =
    | Idle
    | Spin(want: Range)
    | Locking(want: Range)
    | Set(want: Range, done: nat)
    | Send(want: Range)
    | Wait(want: Range)
    | Leave(want: Range)

  /** Where a processor is in x86_64_HandleNMI. */
  datatype Handler =
    | Out
    | Enter
    | Hold
    | GotStart(start: nat)
    | Got(range: Range)
    | Invalidated
    | Counted(count: nat)
    | Cleared

  datatype Cpu = Cpu(raiser: Raiser, handler: Handler, pending: bool, log: seq<Range>)

  /** The processors, the request record, the two locks, and the logs when the current request was made. */
  datatype State = State(
    cpus: seq<Cpu>, isSet: bool, start: nat, count: nat, cpuCount: nat, maxCount: nat,
    lock: int, raiseLock: int, base: seq<seq<Range>>)

  const FREE := -1

  datatype Action =
    | Begin(want: Range) | TakeRaise | TakeLock | Assign | Unlock | SendNmi | StopWaiting | Return
    | Interrupt | HandlerLock | Test | ReadStart | ReadCount | Invalidate | Acknowledge | Clear | Release

  function With(s: State, p: nat, c: Cpu): State {
    if p < |s.cpus| then s.(cpus := s.cpus[p := c]) else s
  }

  /** When processor `p` can take a step. A handler interrupts what the processor was doing; NMIs wait for it to finish. */
  predicate Enabled(s: State, p: nat, a: Action) {
    && p < |s.cpus| && |s.cpus| >= 2
    && var c := s.cpus[p];
       match a
       case Begin(_) => c.handler.Out? && c.raiser.Idle?
       case TakeRaise => c.handler.Out? && c.raiser.Spin? && s.raiseLock == FREE
       case TakeLock => c.handler.Out? && c.raiser.Locking? && s.lock == FREE
       case Assign => c.handler.Out? && c.raiser.Set? && c.raiser.done < 5
       case Unlock => c.handler.Out? && c.raiser.Set? && c.raiser.done == 5
       case SendNmi => c.handler.Out? && c.raiser.Send?
       case StopWaiting => c.handler.Out? && c.raiser.Wait? && s.cpuCount >= |s.cpus| - 1
       case Return => c.handler.Out? && c.raiser.Leave?
       case Interrupt => c.handler.Out? && c.pending
       case HandlerLock => c.handler.Enter? && s.lock == FREE
       case Test => c.handler.Hold? && !s.isSet
       case ReadStart => c.handler.Hold? && s.isSet
       case ReadCount => c.handler.GotStart?
       case Invalidate => c.handler.Got?
       case Acknowledge => c.handler.Invalidated?
       case Clear => c.handler.Counted?
       case Release => c.handler.Cleared?
  }

  /** Sets the pending bit of every processor but one. */
  function SendAll(cpus: seq<Cpu>, p: nat): (r: seq<Cpu>)
    ensures |r| == |cpus|
    ensures forall q :: 0 <= q < |cpus| ==> r[q] == if q == p then cpus[q] else cpus[q].(pending := true)
  {
    seq(|cpus|, q requires 0 <= q < |cpus| => if q == p then cpus[q] else cpus[q].(pending := true))
  }

  function Logs(cpus: seq<Cpu>): (r: seq<seq<Range>>)
    ensures |r| == |cpus| && forall q :: 0 <= q < |cpus| ==> r[q] == cpus[q].log
  {
    seq(|cpus|, q requires 0 <= q < |cpus| => cpus[q].log)
  }

  function Do(s: State, p: nat, a: Action): State
    requires Enabled(s, p, a)
  {
    var c := s.cpus[p];
    match a
    case Begin(want) => With(s, p, c.(raiser := Spin(want)))
    case TakeRaise => With(s.(raiseLock := p), p, c.(raiser := Locking(c.raiser.want)))
    case TakeLock => With(s.(lock := p), p, c.(raiser := Set(c.raiser.want, 0)))
    case Assign =>
      var w, k := c.raiser.want, c.raiser.done;
      var s1 := if k == 0 then s.(isSet := true) else if k == 1 then s.(start := w.start) else if k == 2 then s.(count := w.count)
        else if k == 3 then s.(cpuCount := 0) else s.(maxCount := |s.cpus| - 1);
      With(s1, p, c.(raiser := Set(w, k + 1)))
    case Unlock => With(s.(lock := FREE), p, c.(raiser := Send(c.raiser.want)))
    case SendNmi => With(s, p, c.(raiser := Wait(c.raiser.want))).(base := Logs(s.cpus), cpus := SendAll(s.cpus[p := c.(raiser := Wait(c.raiser.want))], p))
    case StopWaiting => With(s, p, c.(raiser := Leave(c.raiser.want)))
    case Return => With(s.(raiseLock := FREE), p, c.(raiser := Idle))
    case Interrupt => With(s, p, c.(pending := false, handler := Enter))
    case HandlerLock => With(s.(lock := p), p, c.(handler := Hold))
    case Test => With(s, p, c.(handler := Cleared))
    case ReadStart => With(s, p, c.(handler := GotStart(s.start)))
    case ReadCount => With(s, p, c.(handler := Got(Range(c.handler.start, s.count))))
    case Invalidate => With(s, p, c.(handler := Invalidated, log := c.log + [c.handler.range]))
    case Acknowledge => With(s.(cpuCount := s.cpuCount + 1), p, c.(handler := Counted(s.cpuCount + 1)))
    case Clear =>
      var s1 := if c.handler.count == s.maxCount then s.(isSet := false, maxCount := 0) else s;
      With(s1, p, c.(handler := Cleared))
    case Release => With(s.(lock := FREE), p, c.(handler := Out))
  }

  predicate Initial(s: State) {
    && |s.cpus| >= 2 && !s.isSet && s.lock == FREE && s.raiseLock == FREE && |s.base| == |s.cpus|
    && forall p :: 0 <= p < |s.cpus| ==> s.cpus[p] == Cpu(Idle, Out, false, [])
  }

  // ---------- The invariant ----------

  /** The processor is inside a critical section of the record's lock. */
  predicate Holds(c: Cpu) {
    c.raiser.Set? || (!c.handler.Out? && !c.handler.Enter?)
  }

  /** The processor holds the lock that serialises raisers. */
  predicate Raises(c: Cpu) {
    !c.raiser.Idle? && !c.raiser.Spin?
  }

  /** The request is out and the processor has not acknowledged it. */
  predicate Owes(c: Cpu) {
    c.pending || c.handler.Enter? || c.handler.Hold? || c.handler.GotStart? || c.handler.Got? || c.handler.Invalidated?
  }

  ghost predicate Locks(s: State) {
    && |s.cpus| >= 2 && |s.base| == |s.cpus|
    && (forall p :: 0 <= p < |s.cpus| ==> (Holds(s.cpus[p]) <==> s.lock == p))
    && (forall p :: 0 <= p < |s.cpus| ==> (Raises(s.cpus[p]) <==> s.raiseLock == p))
    && (s.lock == FREE || 0 <= s.lock < |s.cpus|) && (s.raiseLock == FREE || 0 <= s.raiseLock < |s.cpus|)
    && (forall p :: 0 <= p < |s.cpus| ==> Raises(s.cpus[p]) ==> s.cpus[p].handler.Out? && !s.cpus[p].pending)
    && (forall p :: 0 <= p < |s.cpus| && s.cpus[p].raiser.Set? ==> s.cpus[p].raiser.done <= 5)
    && (forall p :: 0 <= p < |s.cpus| && s.cpus[p].pending ==> s.cpus[p].handler.Out?)
  }

  ghost predicate NobodyOwes(s: State) {
    forall p :: 0 <= p < |s.cpus| ==> !Owes(s.cpus[p])
  }

  /** The processors other than `a` that have acknowledged the request. */
  ghost function Acked(s: State, a: int): set<int> {
    set q | 0 <= q < |s.cpus| && q != a && !Owes(s.cpus[q])
  }

  /** What a processor has done about the request `w`. */
  ghost predicate Partway(c: Cpu, base: seq<Range>, w: Range) {
    && c.log == (if Owes(c) && !c.handler.Invalidated? then base else base + [w])
    && (c.handler.GotStart? ==> c.handler.start == w.start)
    && (c.handler.Got? ==> c.handler.range == w)
  }

  /** The record holds the request `w`. */
  ghost predicate Record(s: State, w: Range) {
    s.start == w.start && s.count == w.count
  }

  ghost predicate Active(s: State, a: int, w: Range)
    requires |s.base| == |s.cpus|
  {
    && Record(s, w) && s.cpuCount == |Acked(s, a)| && (s.maxCount == |s.cpus| - 1 || s.maxCount == 0)
    && (!NobodyOwes(s) ==> s.isSet && s.maxCount == |s.cpus| - 1)
    && forall q :: 0 <= q < |s.cpus| && q != a ==> Partway(s.cpus[q], s.base[q], w)
  }

  /** Every processor but `a` has invalidated exactly the range `w`, once, since the request was made. */
  ghost predicate Complete(s: State, a: int, w: Range) {
    |s.base| == |s.cpus| && forall q :: 0 <= q < |s.cpus| && q != a ==> s.cpus[q].log == s.base[q] + [w]
  }

  ghost predicate RaiserInv(s: State, a: int, r: Raiser)
    requires |s.base| == |s.cpus|
  {
    match r
    case Idle => NobodyOwes(s)
    case Spin(_) => NobodyOwes(s)
    case Locking(_) => NobodyOwes(s)
    case Set(w, k) =>
      && NobodyOwes(s) && (k >= 1 ==> s.isSet) && (k >= 2 ==> s.start == w.start) && (k >= 3 ==> s.count == w.count)
      && (k >= 4 ==> s.cpuCount == 0) && (k >= 5 ==> s.maxCount == |s.cpus| - 1)
    case Send(w) => NobodyOwes(s) && s.lock == FREE && s.isSet && Record(s, w) && s.cpuCount == 0 && s.maxCount == |s.cpus| - 1
    case Wait(w) => Active(s, a, w)
    case Leave(w) => NobodyOwes(s) && Complete(s, a, w)
  }

  ghost predicate Inv(s: State) {
    && Locks(s)
    && (forall p :: 0 <= p < |s.cpus| && s.cpus[p].handler.Counted? ==> 1 <= s.cpus[p].handler.count == s.cpuCount)
    && RaiserInv(s, s.raiseLock, if s.raiseLock == FREE then Idle else s.cpus[s.raiseLock].raiser)
  }

  lemma InitialInv(s: State)
    requires Initial(s)
    ensures Inv(s)
  {
  }

  // ---------- The locks ----------

  predicate IsHandler(a: Action) {
    a.Interrupt? || a.HandlerLock? || a.Test? || a.ReadStart? || a.ReadCount? || a.Invalidate? || a.Acknowledge? || a.Clear? || a.Release?
  }

  /** A step that changes only one processor, neither lock, and not whether that processor holds them. */
  lemma KeepLocks(s: State, s': State, p: nat, c: Cpu)
    requires Locks(s) && p < |s.cpus| && s'.cpus == s.cpus[p := c] && s'.lock == s.lock && s'.raiseLock == s.raiseLock && s'.base == s.base
    requires Holds(c) == Holds(s.cpus[p]) && Raises(c) == Raises(s.cpus[p]) && (Raises(c) ==> c.handler.Out? && !c.pending)
    requires (c.raiser.Set? ==> c.raiser.done <= 5) && (c.pending ==> c.handler.Out?)
    ensures Locks(s')
  {
    hide Holds, Raises;
  }

  lemma TakeOrDrop(s: State, p: nat, a: Action)
    requires Locks(s) && Enabled(s, p, a) && (a.TakeRaise? || a.TakeLock? || a.Unlock? || a.Return? || a.HandlerLock? || a.Release?)
    requires a.TakeRaise? ==> NobodyOwes(s)
    ensures Locks(Do(s, p, a))
  {
  }

  lemma SendLocks(s: State, p: nat)
    requires Inv(s) && Enabled(s, p, SendNmi)
    ensures Locks(Do(s, p, SendNmi))
  {
  }

  lemma LocksStep(s: State, p: nat, a: Action)
    requires Inv(s) && Enabled(s, p, a)
    ensures Locks(Do(s, p, a))
  {
    if a.SendNmi? {
      SendLocks(s, p);
    } else if a.TakeRaise? || a.TakeLock? || a.Unlock? || a.Return? || a.HandlerLock? || a.Release? {
      assert a.TakeRaise? ==> NobodyOwes(s);
      hide RaiserInv, NobodyOwes;
      TakeOrDrop(s, p, a);
    } else {
      hide RaiserInv;
      var s' := Do(s, p, a);
      KeepLocks(s, s', p, s'.cpus[p]);
    }
  }

  /** A step that leaves open what everybody owes. */
  lemma SameOwes(s: State, s': State, p: nat, c: Cpu)
    requires p < |s.cpus| && s'.cpus == s.cpus[p := c] && Owes(c) == Owes(s.cpus[p])
    ensures NobodyOwes(s') <==> NobodyOwes(s)
    ensures forall a :: Acked(s', a) == Acked(s, a)
  {
    assert forall q :: 0 <= q < |s.cpus| ==> (Owes(s'.cpus[q]) <==> Owes(s.cpus[q]));
    hide Owes;
    assert s.cpus[p] == s.cpus[p];
  }

  /** A step of another processor that keeps the record and its place in the request keeps the request active. */
  lemma ActiveKept(s: State, s': State, a: int, w: Range, p: nat, c: Cpu)
    requires |s.base| == |s.cpus| && Active(s, a, w) && p < |s.cpus| && p != a && s'.cpus == s.cpus[p := c] && s'.base == s.base
    requires s'.start == s.start && s'.count == s.count && s'.cpuCount == s.cpuCount
    requires (s'.isSet == s.isSet && s'.maxCount == s.maxCount) || (NobodyOwes(s) && s'.maxCount == 0)
    requires Owes(c) == Owes(s.cpus[p]) && (Partway(s.cpus[p], s.base[p], w) ==> Partway(c, s.base[p], w))
    ensures Active(s', a, w)
  {
    hide Owes, Partway, NobodyOwes, Acked;
    SameOwes(s, s', p, c);
  }

  // ---------- Steps of the raiser ----------

  lemma BeginStep(s: State, p: nat, want: Range)
    requires Inv(s) && Enabled(s, p, Begin(want))
    ensures Inv(Do(s, p, Begin(want)))
  {
    var s' := Do(s, p, Begin(want));
    LocksStep(s, p, Begin(want));
    SameOwes(s, s', p, s'.cpus[p]);
    hide Acked, NobodyOwes;
  }

  lemma SetStep(s: State, p: nat, a: Action)
    requires Inv(s) && Enabled(s, p, a) && (a.TakeRaise? || a.TakeLock? || a.Assign? || a.Unlock?)
    ensures Inv(Do(s, p, a))
  {
    var s' := Do(s, p, a);
    LocksStep(s, p, a);
    SameOwes(s, s', p, s'.cpus[p]);
    assert s.raiseLock == FREE || s.raiseLock == p;
    assert s'.raiseLock == p;
    hide Acked, NobodyOwes;
  }

  lemma SendStep(s: State, p: nat)
    requires Inv(s) && Enabled(s, p, SendNmi)
    ensures Inv(Do(s, p, SendNmi))
  {
    var s' := Do(s, p, SendNmi);
    LocksStep(s, p, SendNmi);
    assert s.raiseLock == p;
    assert Acked(s', p) == {};
  }

  /** As many acknowledgements as other processors: nobody owes one. */
  lemma {:induction false} AllAcked(s: State, a: int)
    requires 0 <= a < |s.cpus| && |Acked(s, a)| >= |s.cpus| - 1
    ensures forall q :: 0 <= q < |s.cpus| && q != a ==> !Owes(s.cpus[q])
  {
    var all := Others(|s.cpus|, a);
    if q :| 0 <= q < |s.cpus| && q != a && Owes(s.cpus[q]) {
      assert Acked(s, a) <= all - {q};
      Smaller(Acked(s, a), all - {q});
    }
  }

  ghost function Others(n: nat, a: int): (r: set<int>)
    ensures forall q :: q in r <==> 0 <= q < n && q != a
    ensures |r| == n - (if 0 <= a < n then 1 else 0)
  {
    if n == 0 then {} else if a == n - 1 then Others(n - 1, a) else Others(n - 1, a) + {n - 1}
  }

  lemma Smaller(a: set<int>, b: set<int>)
    requires a <= b
    ensures |a| <= |b|
  {
    assert b == a + (b - a);
  }

  lemma StopStep(s: State, p: nat)
    requires Inv(s) && Enabled(s, p, StopWaiting)
    ensures Inv(Do(s, p, StopWaiting))
  {
    var s' := Do(s, p, StopWaiting);
    LocksStep(s, p, StopWaiting);
    assert s.raiseLock == p;
    AllAcked(s, p);
  }

  lemma ReturnStep(s: State, p: nat)
    requires Inv(s) && Enabled(s, p, Return)
    ensures Inv(Do(s, p, Return))
  {
    LocksStep(s, p, Return);
    assert s.raiseLock == p;
  }

  // ---------- Steps of the handler ----------

  /** A handler acts for another processor's request, if it has not acknowledged it yet. */
  lemma HandlerCase(s: State, p: nat, a: Action)
    requires Inv(s) && Enabled(s, p, a) && IsHandler(a)
    ensures p != s.raiseLock
    ensures Owes(s.cpus[p]) ==> s.raiseLock != FREE && s.cpus[s.raiseLock].raiser.Wait?
  {
  }

  /** The request is out as long as somebody owes an acknowledgement. */
  lemma StillSet(s: State, p: nat, r: int, w: Range)
    requires |s.base| == |s.cpus| && p < |s.cpus| && Active(s, r, w) && Owes(s.cpus[p])
    ensures s.isSet && Record(s, w)
  {
    hide Partway, Acked, Owes;
  }

  /** What such a step does to its processor and to nothing else. */
  lemma OwingPart(s: State, p: nat, a: Action, w: Range)
    requires |s.base| == |s.cpus| && Enabled(s, p, a) && Record(s, w) && s.isSet && Owes(s.cpus[p])
    requires a.Interrupt? || a.HandlerLock? || a.Test? || a.ReadStart? || a.ReadCount? || a.Invalidate?
    ensures var s' := Do(s, p, a);
      && s'.cpus == s.cpus[p := s'.cpus[p]] && |s'.cpus| == |s.cpus| && s'.base == s.base && s'.raiseLock == s.raiseLock && s'.cpus[p].raiser == s.cpus[p].raiser
      && s'.start == s.start && s'.count == s.count && s'.cpuCount == s.cpuCount && s'.isSet == s.isSet && s'.maxCount == s.maxCount
      && Owes(s'.cpus[p]) && (Partway(s.cpus[p], s.base[p], w) ==> Partway(s'.cpus[p], s.base[p], w)) && !s'.cpus[p].handler.Counted?
  {
  }

  /** Steps between the interrupt and the acknowledgement. */
  lemma OwingStep(s: State, p: nat, a: Action)
    requires Inv(s) && Enabled(s, p, a) && (a.Interrupt? || a.HandlerLock? || a.Test? || a.ReadStart? || a.ReadCount? || a.Invalidate?)
    ensures Inv(Do(s, p, a))
  {
    assert Owes(s.cpus[p]);
    hide Active, Locks, Do, Partway, Owes, NobodyOwes, Acked, Record;
    var s' := Do(s, p, a);
    LocksStep(s, p, a);
    LocksFacts(s);
    HandlerCase(s, p, a);
    var r := s.raiseLock;
    var w := s.cpus[r].raiser.want;
    StillSet(s, p, r, w);
    OwingPart(s, p, a, w);
    ActiveKept(s, s', r, w, p, s'.cpus[p]);
  }

  lemma LocksFacts(s: State)
    requires Locks(s)
    ensures |s.base| == |s.cpus| && (s.raiseLock == FREE || 0 <= s.raiseLock < |s.cpus|)
  {
  }

  lemma AckAdds(s: State, p: nat, a: int)
    requires Enabled(s, p, Acknowledge) && p != a && !s.cpus[p].pending
    ensures var s' := Do(s, p, Acknowledge); p !in Acked(s, a) && Acked(s', a) == Acked(s, a) + {p} && !NobodyOwes(s)
  {
    assert Owes(s.cpus[p]);
  }

  lemma AckPartway(s: State, p: nat, a: int, w: Range)
    requires Enabled(s, p, Acknowledge) && p != a && !s.cpus[p].pending && |s.base| == |s.cpus| && Partway(s.cpus[p], s.base[p], w)
    ensures Partway(Do(s, p, Acknowledge).cpus[p], s.base[p], w)
  {
  }

  lemma AckCounted(s: State, p: nat, a: int, w: Range)
    requires Enabled(s, p, Acknowledge) && p != a && !s.cpus[p].pending && |s.base| == |s.cpus| && Active(s, a, w)
    ensures Active(Do(s, p, Acknowledge), a, w)
  {
    hide Acked, Partway, Owes, NobodyOwes;
    AckAdds(s, p, a);
    AckPartway(s, p, a, w);
  }

  lemma AckActive(s: State, p: nat)
    requires Inv(s) && Enabled(s, p, Acknowledge)
    ensures s.raiseLock != FREE && s.cpus[s.raiseLock].raiser.Wait? && p != s.raiseLock
    ensures Active(Do(s, p, Acknowledge), s.raiseLock, s.cpus[s.raiseLock].raiser.want)
  {
    hide Active, NobodyOwes, Do;
    HandlerCase(s, p, Acknowledge);
    AckCounted(s, p, s.raiseLock, s.cpus[s.raiseLock].raiser.want);
  }

  lemma AcknowledgeStep(s: State, p: nat)
    requires Inv(s) && Enabled(s, p, Acknowledge)
    ensures Inv(Do(s, p, Acknowledge))
  {
    LocksStep(s, p, Acknowledge);
    AckActive(s, p);
    OnlyHolder(s, p);
    hide Active, Locks;
  }

  /** While a handler has the lock, no other is between its acknowledgement and the release. */
  lemma OnlyHolder(s: State, p: nat)
    requires Inv(s) && p < |s.cpus| && Holds(s.cpus[p])
    ensures forall q :: 0 <= q < |s.cpus| && s.cpus[q].handler.Counted? ==> q == p
  {
  }

  /** The last steps of a handler, after its acknowledgement. */
  lemma AckedStep(s: State, p: nat, a: Action)
    requires Inv(s) && Enabled(s, p, a) && (a.Clear? || a.Release?)
    ensures Inv(Do(s, p, a))
  {
    LocksStep(s, p, a);
    AckedCounts(s, p, a);
    if s.raiseLock != FREE && s.cpus[s.raiseLock].raiser.Wait? {
      AckedActive(s, p, a);
    } else {
      AckedQuiet(s, p, a);
    }
    HandlerCase(s, p, a);
    hide Active, Locks, NobodyOwes, Complete;
  }

  lemma AckedCounts(s: State, p: nat, a: Action)
    requires Inv(s) && Enabled(s, p, a) && (a.Clear? || a.Release?)
    ensures var s' := Do(s, p, a);
      forall q :: 0 <= q < |s'.cpus| && s'.cpus[q].handler.Counted? ==> 1 <= s'.cpus[q].handler.count == s'.cpuCount
  {
    OnlyHolder(s, p);
    hide Locks, RaiserInv;
  }

  lemma AckedQuiet(s: State, p: nat, a: Action)
    requires Inv(s) && Enabled(s, p, a) && (a.Clear? || a.Release?) && !(s.raiseLock != FREE && s.cpus[s.raiseLock].raiser.Wait?)
    ensures var s' := Do(s, p, a);
      |s'.base| == |s'.cpus| && RaiserInv(s', s.raiseLock, if s.raiseLock == FREE then Idle else s.cpus[s.raiseLock].raiser)
  {
    var s' := Do(s, p, a);
    HandlerCase(s, p, a);
    SameOwes(s, s', p, s'.cpus[p]);
    assert s.lock == p;
    hide NobodyOwes, Active;
  }

  lemma AckedActive(s: State, p: nat, a: Action)
    requires Inv(s) && Enabled(s, p, a) && (a.Clear? || a.Release?) && s.raiseLock != FREE && s.cpus[s.raiseLock].raiser.Wait?
    ensures Active(Do(s, p, a), s.raiseLock, s.cpus[s.raiseLock].raiser.want)
  {
    var s', r := Do(s, p, a), s.raiseLock;
    var w := s.cpus[r].raiser.want;
    HandlerCase(s, p, a);
    assert Active(s, r, w);
    if a.Clear? && s.cpuCount == |s.cpus| - 1 {
      AllAcked(s, r);
      assert NobodyOwes(s);
    }
    assert a.Clear? ==> s.cpuCount == s.cpus[p].handler.count;
    hide Inv, Acked, NobodyOwes;
    ActiveKept(s, s', r, w, p, s'.cpus[p]);
  }

  /** Every step of every processor keeps the invariant. */
  lemma StepInv(s: State, p: nat, a: Action)
    requires Inv(s) && Enabled(s, p, a)
    ensures Inv(Do(s, p, a))
  {
    match a
    case Begin(want) => BeginStep(s, p, want);
    case TakeRaise => SetStep(s, p, a);
    case TakeLock => SetStep(s, p, a);
    case Assign => SetStep(s, p, a);
    case Unlock => SetStep(s, p, a);
    case SendNmi => SendStep(s, p);
    case StopWaiting => StopStep(s, p);
    case Return => ReturnStep(s, p);
    case Acknowledge => AcknowledgeStep(s, p);
    case Clear => AckedStep(s, p, a);
    case Release => AckedStep(s, p, a);
    case Interrupt => OwingStep(s, p, a);
    case HandlerLock => OwingStep(s, p, a);
    case Test => OwingStep(s, p, a);
    case ReadStart => OwingStep(s, p, a);
    case ReadCount => OwingStep(s, p, a);
    case Invalidate => OwingStep(s, p, a);
  }

  // ---------- Runs ----------

  /** The states of a run from the start. */
  ghost predicate IsRun(states: seq<State>, steps: seq<(nat, Action)>) {
    && |states| == |steps| + 1 && Initial(states[0])
    && forall t :: 0 <= t < |steps| ==> Enabled(states[t], steps[t].0, steps[t].1) && states[t + 1] == Do(states[t], steps[t].0, steps[t].1)
  }

  lemma {:induction false} RunInv(states: seq<State>, steps: seq<(nat, Action)>, t: nat)
    requires IsRun(states, steps) && t < |states|
    ensures Inv(states[t])
    decreases t
  {
    hide Inv, Do, Enabled, Initial;
    if t == 0 {
      InitialInv(states[0]);
    } else {
      RunInv(states, steps, t - 1);
      StepInv(states[t - 1], steps[t - 1].0, steps[t - 1].1);
    }
  }

  /** When Raise returns, every other processor has invalidated exactly its range, exactly once, since the NMIs were sent. */
  lemma ShootdownComplete(states: seq<State>, steps: seq<(nat, Action)>, t: nat, p: nat)
    requires IsRun(states, steps) && t < |states| && p < |states[t].cpus| && states[t].cpus[p].raiser.Leave?
    ensures Complete(states[t], p, states[t].cpus[p].raiser.want)
  {
    RunInv(states, steps, t);
    hide IsRun;
    assert Raises(states[t].cpus[p]);
  }

  /** What a processor invalidates is never put together from two requests: it is the one whose raiser is waiting. */
  lemma NoMixture(states: seq<State>, steps: seq<(nat, Action)>, t: nat, p: nat)
    requires IsRun(states, steps) && t < |states| && Enabled(states[t], p, Invalidate)
    ensures var s := states[t];
      0 <= s.raiseLock < |s.cpus| && s.cpus[s.raiseLock].raiser == Wait(s.cpus[p].handler.range)
  {
    RunInv(states, steps, t);
    hide IsRun;
    HandlerCase(states[t], p, Invalidate);
    var s := states[t];
    assert Partway(s.cpus[p], s.base[p], s.cpus[s.raiseLock].raiser.want);
  }

  /** The request is out, or answered. */
  predicate Asked(r: Raiser) {
    r.Wait? || r.Leave?
  }

  lemma OneRaiser(s: State, p: nat, q: nat)
    requires Inv(s) && p < |s.cpus| && q < |s.cpus| && Raises(s.cpus[p]) && Raises(s.cpus[q])
    ensures p == q
  {
    hide RaiserInv;
  }

  /** A call keeps the range it was made with, whoever takes a step; and no other request is sent while its own is out. */
  lemma CallStep(s: State, q: nat, a: Action, p: nat)
    requires Inv(s) && Enabled(s, q, a) && p < |s.cpus| && !s.cpus[p].raiser.Idle? && !(q == p && a.Return?)
    ensures var s' := Do(s, q, a);
      && |s'.cpus| == |s.cpus| && !s'.cpus[p].raiser.Idle? && s'.cpus[p].raiser.want == s.cpus[p].raiser.want
      && (Asked(s'.cpus[p].raiser) ==>
          if q == p && a == SendNmi then s'.base == Logs(s.cpus) else Asked(s.cpus[p].raiser) && s'.base == s.base)
  {
    if a.SendNmi? && Raises(s.cpus[p]) {
      OneRaiser(s, p, q);
    }
    hide RaiserInv, Holds, Inv;
  }

  /** At any time of a call that began with `w`, and the time `m` at which it sent its NMIs, once it has. */
  lemma {:induction false} CallKept(states: seq<State>, steps: seq<(nat, Action)>, b: nat, t: nat, p: nat, w: Range) returns (m: nat)
    requires IsRun(states, steps) && b < t < |states| && steps[b] == (p, Begin(w)) && forall i :: b < i < t ==> steps[i] != (p, Return)
    ensures p < |states[t].cpus| && !states[t].cpus[p].raiser.Idle? && states[t].cpus[p].raiser.want == w
    ensures Asked(states[t].cpus[p].raiser) ==> b < m < t && steps[m] == (p, SendNmi) && states[t].base == Logs(states[m].cpus)
    decreases t
  {
    hide Inv, Do, Enabled, Logs, Initial, Asked;
    var s, q, a := states[t - 1], steps[t - 1].0, steps[t - 1].1;
    m := t - 1;
    if t == b + 1 {
      Begun(s, p, w);
    } else {
      var i := CallKept(states, steps, b, t - 1, p, w);
      RunInv(states, steps, t - 1);
      CallStep(s, q, a, p);
      if !(q == p && a == SendNmi) {
        m := i;
      }
    }
  }

  lemma Begun(s: State, p: nat, w: Range)
    requires Enabled(s, p, Begin(w))
    ensures var s' := Do(s, p, Begin(w)); p < |s'.cpus| && s'.cpus[p].raiser == Spin(w) && !Asked(s'.cpus[p].raiser)
  {
  }

  /**
   * A Raise for the range `w` that has its answer: since it sent its NMIs every other processor has invalidated exactly `w`,
   * exactly once.
   */
  lemma RequestServed(states: seq<State>, steps: seq<(nat, Action)>, b: nat, t: nat, p: nat, w: Range) returns (m: nat)
    requires IsRun(states, steps) && b < t < |states| && steps[b] == (p, Begin(w)) && forall i :: b < i < t ==> steps[i] != (p, Return)
    requires p < |states[t].cpus| && states[t].cpus[p].raiser.Leave?
    ensures b < m < t && steps[m] == (p, SendNmi) && |states[m].cpus| == |states[t].cpus|
    ensures forall q :: 0 <= q < |states[t].cpus| && q != p ==> states[t].cpus[q].log == states[m].cpus[q].log + [w]
  {
    m := CallKept(states, steps, b, t, p, w);
    ShootdownComplete(states, steps, t, p);
  }

  // ---------- The record is cleared ----------

  /** Some processor has not acknowledged the request, or is the last to have done so and is about to clear the record. */
  ghost predicate Pending(s: State) {
    exists q :: 0 <= q < |s.cpus| && Engaged(s, q)
  }

  ghost predicate Engaged(s: State, q: int)
    requires 0 <= q < |s.cpus|
  {
    Owes(s.cpus[q]) || s.cpus[q].handler == Counted(|s.cpus| - 1)
  }

  /** A record that is set is being filled, about to be sent, or not yet dealt with. */
  ghost predicate InUse(s: State) {
    s.isSet ==>
      var r := if 0 <= s.raiseLock < |s.cpus| then s.cpus[s.raiseLock].raiser else Idle;
      if r.Set? then r.done >= 1 else r.Send? || (s.maxCount == |s.cpus| - 1 && Pending(s))
  }

  /** A step that leaves the record and who is engaged alone. */
  lemma InUseKept(s: State, p: nat, a: Action)
    requires Inv(s) && InUse(s) && Enabled(s, p, a) && !a.Acknowledge? && !a.Clear? && !a.Assign? && !a.SendNmi? && !a.Unlock?
    ensures InUse(Do(s, p, a))
  {
    var s' := Do(s, p, a);
    var r := if 0 <= s.raiseLock < |s.cpus| then s.cpus[s.raiseLock].raiser else Idle;
    EngagedKept(s, p, a);
    if s.isSet && !r.Set? && !r.Send? {
      var q :| 0 <= q < |s.cpus| && Engaged(s, q);
      hide Engaged, Inv;
    }
  }

  lemma EngagedKept(s: State, p: nat, a: Action)
    requires Inv(s) && Enabled(s, p, a) && !a.Acknowledge? && !a.Clear? && !a.Assign? && !a.SendNmi? && !a.Unlock?
    ensures var s' := Do(s, p, a);
      && |s'.cpus| == |s.cpus| && s'.isSet == s.isSet && s'.maxCount == s.maxCount
      && (a.Test? ==> !s.isSet)
      && (forall q :: 0 <= q < |s.cpus| && Engaged(s, q) && !a.Test? ==> Engaged(s', q))
  {
    hide RaiserInv;
  }

  lemma InUseRaiser(s: State, p: nat, a: Action)
    requires Inv(s) && InUse(s) && Enabled(s, p, a) && (a.Assign? || a.SendNmi? || a.Unlock?)
    ensures InUse(Do(s, p, a))
  {
    var s' := Do(s, p, a);
    assert s.raiseLock == p && s'.raiseLock == p;
    if a.SendNmi? {
      var q := if p == 0 then 1 else 0;
      assert s'.cpus[q].pending && Engaged(s', q);
    }
  }

  /** The last acknowledgement makes its processor the one to clear the record. */
  lemma InUseAcked(s: State, p: nat)
    requires Inv(s) && Enabled(s, p, Acknowledge)
    ensures InUse(Do(s, p, Acknowledge))
  {
    var s', r, n := Do(s, p, Acknowledge), s.raiseLock, |s.cpus|;
    AckActive(s, p);
    assert Owes(s.cpus[p]) && s.maxCount == n - 1;
    if q :| 0 <= q < n && Owes(s'.cpus[q]) {
      assert Engaged(s', q);
    } else {
      AllOthers(s', r);
      assert s'.cpus[p].handler == Counted(n - 1);
      assert Engaged(s', p);
    }
  }

  lemma AllOthers(s: State, r: int)
    requires 0 <= r < |s.cpus| && forall q :: 0 <= q < |s.cpus| ==> !Owes(s.cpus[q])
    ensures |Acked(s, r)| == |s.cpus| - 1
  {
    assert Acked(s, r) == Others(|s.cpus|, r);
  }

  lemma InUseCleared(s: State, p: nat)
    requires Inv(s) && InUse(s) && Enabled(s, p, Clear)
    ensures InUse(Do(s, p, Clear))
  {
    var s', n := Do(s, p, Clear), |s.cpus|;
    assert Holds(s.cpus[p]) && s.lock == p;
    if s'.isSet {
      var q :| 0 <= q < n && Engaged(s, q);
      assert Owes(s.cpus[q]);
      assert q != p && Engaged(s', q);
    }
  }

  lemma InUseStep(s: State, p: nat, a: Action)
    requires Inv(s) && InUse(s) && Enabled(s, p, a)
    ensures InUse(Do(s, p, a))
  {
    hide Inv, InUse, Do, Enabled;
    if a.Acknowledge? {
      InUseAcked(s, p);
    } else if a.Clear? {
      InUseCleared(s, p);
    } else if a.Assign? || a.SendNmi? || a.Unlock? {
      InUseRaiser(s, p, a);
    } else {
      InUseKept(s, p, a);
    }
  }

  lemma {:induction false} RunInUse(states: seq<State>, steps: seq<(nat, Action)>, t: nat)
    requires IsRun(states, steps) && t < |states|
    ensures InUse(states[t])
    decreases t
  {
    hide Inv, Do, Enabled;
    if t > 0 {
      hide InUse, Initial;
      RunInUse(states, steps, t - 1);
      RunInv(states, steps, t - 1);
      InUseStep(states[t - 1], steps[t - 1].0, steps[t - 1].1);
    }
  }

  /** When every call and handler is done the record holds no request. */
  lemma QuietIsClear(states: seq<State>, steps: seq<(nat, Action)>, t: nat)
    requires IsRun(states, steps) && t < |states| && Quiet(states[t])
    ensures !states[t].isSet
  {
    RunInUse(states, steps, t);
    hide IsRun;
  }

  // ---------- Progress ----------

  function RaiserRank(r: Raiser): nat {
    match r
    case Idle => 0
    case Spin(_) => 11
    case Locking(_) => 10
    case Set(_, k) => if k <= 5 then 9 - k else 4
    case Send(_) => 3
    case Wait(_) => 2
    case Leave(_) => 1
  }

  function HandlerRank(h: Handler): nat {
    match h
    case Out => 0
    case Enter => 7
    case Hold => 6
    case GotStart(_) => 5
    case Got(_) => 4
    case Invalidated => 3
    case Counted(_) => 2
    case Cleared => 1
  }

  /** The steps a processor has before it, weighted: sending counts for all the handling it causes. */
  function CpuWork(c: Cpu, weight: nat): nat {
    RaiserRank(c.raiser) * weight + HandlerRank(c.handler) + (if c.pending then 8 else 0)
  }

  function SumWork(cpus: seq<Cpu>, weight: nat): nat {
    if cpus == [] then 0 else CpuWork(cpus[0], weight) + SumWork(cpus[1..], weight)
  }

  function Work(s: State): nat {
    SumWork(s.cpus, 8 * |s.cpus| + 1)
  }

  lemma {:induction false} WorkUpdate(cpus: seq<Cpu>, p: nat, c: Cpu, weight: nat)
    requires p < |cpus|
    ensures SumWork(cpus[p := c], weight) == SumWork(cpus, weight) - CpuWork(cpus[p], weight) + CpuWork(c, weight)
    decreases |cpus|
  {
    hide CpuWork;
    if p > 0 {
      assert cpus[p := c][1..] == cpus[1..][p - 1 := c];
      WorkUpdate(cpus[1..], p - 1, c, weight);
    } else {
      assert cpus[p := c][1..] == cpus[1..];
    }
  }

  lemma {:induction false} WorkSend(cpus: seq<Cpu>, cpus': seq<Cpu>, weight: nat)
    requires |cpus'| == |cpus| && forall q :: 0 <= q < |cpus| ==> cpus'[q] == cpus[q] || cpus'[q] == cpus[q].(pending := true)
    ensures SumWork(cpus', weight) <= SumWork(cpus, weight) + 8 * |cpus|
    decreases |cpus|
  {
    if cpus != [] {
      WorkSend(cpus[1..], cpus'[1..], weight);
    }
  }

  lemma SendWork(s: State, p: nat)
    requires Enabled(s, p, SendNmi)
    ensures Work(Do(s, p, SendNmi)) < Work(s)
  {
    var s', c, weight := Do(s, p, SendNmi), s.cpus[p], 8 * |s.cpus| + 1;
    var c1 := c.(raiser := Wait(c.raiser.want));
    WorkUpdate(s.cpus, p, c1, weight);
    WorkSend(s.cpus[p := c1], s'.cpus, weight);
  }

  /** Every other step changes one processor. */
  lemma OneCpu(s: State, p: nat, a: Action)
    requires Enabled(s, p, a) && !a.SendNmi?
    ensures Do(s, p, a).cpus == s.cpus[p := Do(s, p, a).cpus[p]] && |Do(s, p, a).cpus| == |s.cpus|
  {
  }

  /** Every step but the start of a new Raise uses up work, so the calls that are under way take finitely many steps. */
  lemma WorkFalls(s: State, p: nat, a: Action)
    requires Enabled(s, p, a) && !a.Begin?
    ensures Work(Do(s, p, a)) < Work(s)
  {
    if a.SendNmi? {
      SendWork(s, p);
    } else {
      OneCpu(s, p, a);
      RankFalls(s, p, a);
      hide Do, Enabled, IsHandler, CpuWork, HandlerRank, RaiserRank, SumWork;
      var s', weight := Do(s, p, a), 8 * |s.cpus| + 1;
      WorkUpdate(s.cpus, p, s'.cpus[p], weight);
      WeighRank(s.cpus[p], s'.cpus[p], weight);
    }
  }

  lemma RankFalls(s: State, p: nat, a: Action)
    requires Enabled(s, p, a) && !a.Begin? && !a.SendNmi?
    ensures var c, c' := s.cpus[p], Do(s, p, a).cpus[p];
      if IsHandler(a) then c'.raiser == c.raiser && HandlerRank(c'.handler) + (if c'.pending then 8 else 0) < HandlerRank(c.handler) + (if c.pending then 8 else 0)
      else RaiserRank(c'.raiser) < RaiserRank(c.raiser) && c'.handler == c.handler && c'.pending == c.pending
  {
  }

  lemma WeighRank(c: Cpu, c': Cpu, weight: nat)
    requires weight > 0
    requires || (c'.raiser == c.raiser && HandlerRank(c'.handler) + (if c'.pending then 8 else 0) < HandlerRank(c.handler) + (if c.pending then 8 else 0))
             || (RaiserRank(c'.raiser) < RaiserRank(c.raiser) && c'.handler == c.handler && c'.pending == c.pending)
    ensures CpuWork(c', weight) < CpuWork(c, weight)
  {
    hide RaiserRank, HandlerRank;
    MulLess(RaiserRank(c'.raiser), RaiserRank(c.raiser), weight);
  }

  lemma {:induction false} MulLess(q: nat, r: nat, w: nat)
    ensures q < r ==> q * w + w <= r * w
    decreases r
  {
    if q < r {
      assert r * w == (r - 1) * w + w;
      MulLess(q, r - 1, w);
    }
  }

  /** Every processor is out of Raise and of the handler. */
  ghost predicate Quiet(s: State) {
    forall p :: 0 <= p < |s.cpus| ==> s.cpus[p].raiser.Idle? && s.cpus[p].handler.Out? && !s.cpus[p].pending
  }

  /** Who has the lock can always go on. */
  lemma HolderMoves(s: State) returns (p: nat, a: Action)
    requires Inv(s) && s.lock != FREE
    ensures Enabled(s, p, a) && !a.Begin?
  {
    p := s.lock;
    var c := s.cpus[p];
    assert Holds(c);
    if c.raiser.Set? {
      a := if c.raiser.done < 5 then Assign else Unlock;
    } else {
      a := match c.handler
        case Hold => if s.isSet then ReadStart else Test
        case GotStart(_) => ReadCount
        case Got(_) => Invalidate
        case Invalidated => Acknowledge
        case Counted(_) => Clear
        case _ => Release;
    }
  }

  /** No deadlock: unless all is quiet, some call or handler can go on. */
  lemma NoDeadlock(s: State) returns (p: nat, a: Action)
    requires Inv(s) && !Quiet(s)
    ensures Enabled(s, p, a) && !a.Begin?
  {
    if s.lock != FREE {
      p, a := HolderMoves(s);
    } else if q :| 0 <= q < |s.cpus| && (s.cpus[q].pending || !s.cpus[q].handler.Out?) {
      assert s.lock == FREE && !Holds(s.cpus[q]);
      p, a := q, if s.cpus[q].pending then Interrupt else HandlerLock;
    } else if s.raiseLock != FREE {
      p := s.raiseLock;
      var c := s.cpus[p];
      assert Raises(c) && !Holds(c);
      if c.raiser.Wait? {
        assert NobodyOwes(s);
        assert Acked(s, p) == Others(|s.cpus|, p);
      }
      a := match c.raiser case Locking(_) => TakeLock case Send(_) => SendNmi case Wait(_) => StopWaiting case _ => Return;
    } else {
      var q :| 0 <= q < |s.cpus| && !s.cpus[q].raiser.Idle?;
      assert !Raises(s.cpus[q]);
      p, a := q, TakeRaise;
    }
  }
}
