/** kernel/src/SystemCalls/Futex.cpp: waiting on a word of memory, for one address of one process. */
module Futex {

  import opened Basics

  type Thread = nat

  const INT_MAX: nat := 0x7FFF_FFFF

  // ---------- Wake ----------

  /** (int)maxCount: the conversion wraps above INT_MAX. */
  function AsInt(n: nat): int
    requires n < 0x1_0000_0000
  {
    if n <= INT_MAX then n else n - 0x1_0000_0000
  }

  /** The number of threads a Wake releases: the count is a signed number, so a count above INT_MAX releases none. */
  function WakeCount(waiting: nat, n: nat): nat
    requires n < 0x1_0000_0000
  {
    if n > INT_MAX then 0 else if n < waiting then n else waiting
  }

  /** The loop of FutexWaitQueue::Wake: the first threads of the queue are made runnable, in order. */
  method WakeLoop(queue: seq<Thread>, n: nat) returns (rest: seq<Thread>, released: seq<Thread>, woken: int)
    requires n < 0x1_0000_0000
    ensures woken == |released| == WakeCount(|queue|, n) && released == queue[..woken] && rest == queue[woken..]
    ensures released == queue[..if n < |queue| then n else |queue|] <==> n <= INT_MAX || queue == []
  {
    WakeExact(|queue|, n);
    rest, released, woken := queue, [], 0;
    while woken < AsInt(n) && |rest| > 0
      invariant 0 <= woken <= |queue| && (woken <= AsInt(n) || woken == 0)
      invariant woken == |released| && released == queue[..woken] && rest == queue[woken..]
    {
      released := released + [rest[0]];
      rest := rest[1..];
      woken := woken + 1;
    }
  }

  /** A Wake releases the first min(n, waiting) threads exactly if the count is at most INT_MAX or nobody waits. */
  lemma WakeExact(waiting: nat, n: nat)
    requires n < 0x1_0000_0000
    ensures WakeCount(waiting, n) == (if n < waiting then n else waiting) <==> n <= INT_MAX || waiting == 0
  {
  }

  /** A count of 2^31 wakes nobody. */
  method WakesNobody(t: Thread) returns (rest: seq<Thread>, released: seq<Thread>)
    ensures released == [] && rest == [t]
  {
    var woken;
    rest, released, woken := WakeLoop([t], 0x8000_0000);
  }

  // ---------- The protocol ----------

  /**
   * Where a thread is in sys_futex. A thread that waits first gets the queue object, then takes its lock, reads the word,
   * and joins the queue. `seen` is the number of stores made to the word before it was read.
   */
  datatype Phase =
    | User
    | HasRef(expected: nat)
    | Checking(expected: nat)
    | WasEqual(seen: nat)
    | Queued(seen: nat)
    | Waking(n: nat)
    | Popping(n: nat)
    | Putting

  datatype State = State(word: nat, stores: nat, present: bool, refCount: nat, queue: seq<Thread>, lock: int, threads: seq<Phase>)

  const FREE := -1

  datatype Action =
    | Write(v: nat) | StartWait(expected: nat) | LockToWait | Read | Join
    | StartWake(n: nat) | LockToWake | Pop | Interrupt(victim: Thread) | Put

  /** The object is free and the thread is in a phase that takes this step. */
  predicate Enabled(s: State, t: Thread, a: Action) {
    && t < |s.threads|
    && match a
       case Write(_) => s.threads[t].User?
       case StartWait(_) => s.threads[t].User?
       case LockToWait => s.threads[t].HasRef? && s.lock == FREE
       case Read => s.threads[t].Checking?
       case Join => s.threads[t].WasEqual?
       case StartWake(n) => s.threads[t].User? && n < 0x1_0000_0000
       case LockToWake => s.threads[t].Waking? && s.lock == FREE
       case Pop => s.threads[t].Popping?
       case Interrupt(v) => s.threads[t].User? && s.lock == FREE && v < |s.threads| && s.threads[v].Queued?
       case Put => s.threads[t].Putting?
  }

  function Go(s: State, t: Thread, p: Phase): State {
    if t < |s.threads| then s.(threads := s.threads[t := p]) else s
  }

  /** The released threads return from their wait: they have a reference to give back. */
  function ReleaseAll(threads: seq<Phase>, released: seq<Thread>): (r: seq<Phase>)
    ensures |r| == |threads| && forall u: nat :: u < |threads| ==> r[u] == if u in released then Putting else threads[u]
  {
    seq(|threads|, u requires 0 <= u < |threads| => if u in released then Putting else threads[u])
  }

  function Do(s: State, t: Thread, a: Action): State
    requires Enabled(s, t, a)
  {
    match a
    case Write(v) => s.(word := v, stores := s.stores + 1)
    case StartWait(e) => Go(if s.present then s.(refCount := s.refCount + 1) else s.(present := true, refCount := 2), t, HasRef(e))
    case LockToWait => Go(s.(lock := t), t, Checking(s.threads[t].expected))
    case Read => if s.word == s.threads[t].expected then Go(s, t, WasEqual(s.stores)) else Go(s.(lock := FREE), t, Putting)
    case Join => Go(s.(queue := s.queue + [t], lock := FREE), t, Queued(s.threads[t].seen))
    case StartWake(n) => if s.present then Go(s.(refCount := s.refCount + 1), t, Waking(n)) else s
    case LockToWake => Go(s.(lock := t), t, Popping(s.threads[t].n))
    case Pop =>
      var k := if s.threads[t].n < 0x1_0000_0000 then WakeCount(|s.queue|, s.threads[t].n) else 0;
      var s1 := s.(queue := s.queue[k..], threads := ReleaseAll(s.threads, s.queue[..k]), lock := FREE);
      Go(s1, t, Putting)
    case Interrupt(v) => s.(queue := Without(s.queue, v), threads := s.threads[v := Putting])
    case Put =>
      var s1 := Go(s, t, User);
      if s.refCount <= 1 then s1.(refCount := 0, present := false) else s1.(refCount := s.refCount - 1)
  }

  predicate Initial(s: State) {
    !s.present && s.refCount == 0 && s.queue == [] && s.lock == FREE && forall t :: 0 <= t < |s.threads| ==> s.threads[t].User?
  }

  // ---------- The invariant ----------

  predicate Holds(p: Phase) {
    p.Checking? || p.WasEqual? || p.Popping?
  }

  /** The threads with a reference to the queue object. */
  ghost function Handles(s: State): set<Thread> {
    set t | 0 <= t < |s.threads| && !s.threads[t].User?
  }

  ghost predicate LockInv(s: State) {
    && (forall t: nat :: t < |s.threads| ==> (Holds(s.threads[t]) <==> s.lock == t))
    && (s.lock == FREE || 0 <= s.lock < |s.threads|)
  }

  /** The queue holds the queued threads, once each. */
  ghost predicate QueueInv(s: State) {
    Distinct(s.queue) && forall t: nat :: t in s.queue <==> t < |s.threads| && s.threads[t].Queued?
  }

  /** The object is created with one reference, and every thread in a call has one more. */
  ghost predicate RefInv(s: State) {
    if s.present then s.refCount == 1 + |Handles(s)| else s.refCount == 0 && Handles(s) == {}
  }

  ghost predicate Inv(s: State) {
    LockInv(s) && QueueInv(s) && RefInv(s)
  }

  lemma InitialInv(s: State)
    requires Initial(s)
    ensures Inv(s)
  {
    assert Handles(s) == {};
  }

  lemma LockPart(s: State, t: Thread, a: Action)
    requires LockInv(s) && QueueInv(s) && Enabled(s, t, a)
    ensures LockInv(Do(s, t, a))
  {
  }

  lemma HandlesUpdate(s: State, s': State, t: Thread, p: Phase)
    requires t < |s.threads| && s'.threads == s.threads[t := p]
    ensures |Handles(s')| == |Handles(s)| + (if p.User? then 0 else 1) - (if s.threads[t].User? then 0 else 1)
    ensures Handles(s') == if p.User? then Handles(s) - {t} else Handles(s) + {t}
  {
    var h := Handles(s);
    assert t in h <==> !s.threads[t].User?;
    if p.User? {
      assert Handles(s') == h - {t};
      assert t !in h ==> h - {t} == h;
    } else {
      assert Handles(s') == h + {t};
      assert t in h ==> h + {t} == h;
    }
  }

  lemma RefPart(s: State, t: Thread, a: Action)
    requires QueueInv(s) && RefInv(s) && Enabled(s, t, a)
    ensures RefInv(Do(s, t, a))
  {
    var s' := Do(s, t, a);
    if !s.present && !a.StartWait? {
      NoHandles(s);
      assert Handles(s') == {};
    } else if a.Pop? {
      PopHandles(s, t);
    } else if a.Interrupt? {
      HandlesUpdate(s, s', a.victim, Putting);
    } else if s'.threads != s.threads {
      HandlesUpdate(s, s', t, s'.threads[t]);
    } else {
      assert Handles(s') == Handles(s);
    }
  }

  lemma NoHandles(s: State)
    requires RefInv(s) && !s.present
    ensures forall t :: 0 <= t < |s.threads| ==> s.threads[t].User?
  {
    forall t | 0 <= t < |s.threads| ensures s.threads[t].User? {
      assert t !in Handles(s);
    }
  }

  lemma PopHandles(s: State, t: Thread)
    requires QueueInv(s) && Enabled(s, t, Pop)
    ensures Handles(Do(s, t, Pop)) == Handles(s) && Do(s, t, Pop).refCount == s.refCount && Do(s, t, Pop).present == s.present
  {
    var s' := Do(s, t, Pop);
    forall u | u in s.queue[..|s.queue| - |s'.queue|] ensures u in s.queue {}
  }

  lemma JoinQueue(s: State, t: Thread)
    requires QueueInv(s) && Enabled(s, t, Join)
    ensures QueueInv(Do(s, t, Join))
  {
    assert t !in s.queue;
  }

  lemma PopQueue(s: State, t: Thread)
    requires QueueInv(s) && Enabled(s, t, Pop)
    ensures QueueInv(Do(s, t, Pop))
  {
    var s' := Do(s, t, Pop);
    var k, q := |s.queue| - |s'.queue|, s.queue;
    assert t !in q && s'.queue == q[k..];
    forall u: nat ensures u in q[k..] <==> u < |s'.threads| && s'.threads[u].Queued? {
      SplitQueue(q, k, u);
    }
  }

  lemma SplitQueue(q: seq<Thread>, k: nat, u: Thread)
    requires Distinct(q) && k <= |q|
    ensures (u in q <==> u in q[..k] || u in q[k..]) && !(u in q[..k] && u in q[k..])
  {
    assert q == q[..k] + q[k..];
    if u in q[..k] {
      var i :| 0 <= i < k && q[i] == u;
      assert forall j :: k <= j < |q| ==> q[j] != u;
    }
  }

  lemma QueuePart(s: State, t: Thread, a: Action)
    requires QueueInv(s) && Enabled(s, t, a)
    ensures QueueInv(Do(s, t, a))
  {
    if a.Pop? {
      PopQueue(s, t);
    } else if a.Join? {
      JoinQueue(s, t);
    } else if a.Interrupt? {
      WithoutMeaning(s.queue, a.victim);
    }
  }

  lemma StepInv(s: State, t: Thread, a: Action)
    requires Inv(s) && Enabled(s, t, a)
    ensures Inv(Do(s, t, a))
  {
    hide LockInv, QueueInv, RefInv;
    LockPart(s, t, a);
    QueuePart(s, t, a);
    RefPart(s, t, a);
  }

  /** PutFutex never frees the object: the reference it was created with stays. */
  lemma NeverFreed(s: State, t: Thread, a: Action)
    requires Inv(s) && Enabled(s, t, a) && s.present
    ensures Do(s, t, a).present && Do(s, t, a).refCount >= 1
  {
    if a.Put? {
      assert t in Handles(s);
    }
  }

  // ---------- No lost wakeup ----------

  /** Every thread that is queued, or about to be, read the word after `v` stores had been made. */
  ghost predicate Since(s: State, v: nat) {
    && v <= s.stores
    && forall t :: 0 <= t < |s.threads| ==>
      (s.threads[t].WasEqual? ==> s.threads[t].seen >= v) && (s.threads[t].Queued? ==> s.threads[t].seen >= v)
  }

  lemma SinceStep(s: State, t: Thread, a: Action, v: nat)
    requires Inv(s) && Since(s, v) && Enabled(s, t, a)
    ensures Since(Do(s, t, a), v)
  {
  }

  /** The Wake takes all that wait, or it finds no queue object. */
  ghost predicate Covers(s: State, t: Thread, a: Action) {
    && Enabled(s, t, a)
    && ((a.Pop? && s.threads[t].n <= INT_MAX && |s.queue| <= s.threads[t].n) || (a.StartWake? && !s.present))
  }

  /** At that moment nobody has seen the word as it was before: the lock excludes readers, and without an object there are none. */
  lemma CoversAll(s: State, t: Thread, a: Action)
    requires Inv(s) && Covers(s, t, a)
    ensures Since(Do(s, t, a), s.stores)
  {
    if a.Pop? {
      var s' := Do(s, t, a);
      assert s'.queue == [];
      forall u | 0 <= u < |s.threads| ensures !s'.threads[u].WasEqual? && !s'.threads[u].Queued? {
        if s.threads[u].Queued? {
          assert u in s.queue && s.queue == s.queue[..|s.queue|];
        }
        assert u != t ==> !Holds(s.threads[u]);
      }
    } else {
      forall u | 0 <= u < |s.threads| ensures s.threads[u].User? {
        assert u !in Handles(s);
      }
    }
  }

  ghost predicate IsRun(states: seq<State>, steps: seq<(Thread, Action)>) {
    && |states| == |steps| + 1 && Initial(states[0])
    && forall i :: 0 <= i < |steps| ==> Enabled(states[i], steps[i].0, steps[i].1) && states[i + 1] == Do(states[i], steps[i].0, steps[i].1)
  }

  lemma {:induction false} RunInv(states: seq<State>, steps: seq<(Thread, Action)>, i: nat)
    requires IsRun(states, steps) && i < |states|
    ensures Inv(states[i])
    decreases i
  {
    hide Inv, Do, Enabled, Initial;
    if i == 0 {
      InitialInv(states[0]);
    } else {
      RunInv(states, steps, i - 1);
      StepInv(states[i - 1], steps[i - 1].0, steps[i - 1].1);
    }
  }

  /**
   * If a Wake that covers the queue completes at step `w`, then at no later time is a thread queued that read the word
   * before the stores made by then: no thread sleeps on a value that was replaced before the Wake.
   */
  lemma {:induction false} NoLostWakeup(states: seq<State>, steps: seq<(Thread, Action)>, w: nat, i: nat)
    requires IsRun(states, steps) && w < i < |states| && Covers(states[w], steps[w].0, steps[w].1)
    ensures Since(states[i], states[w].stores)
    decreases i
  {
    hide Inv, Do, Enabled, Initial, Covers, Since;
    RunInv(states, steps, i - 1);
    if i == w + 1 {
      CoversAll(states[w], steps[w].0, steps[w].1);
    } else {
      NoLostWakeup(states, steps, w, i - 1);
      SinceStep(states[i - 1], steps[i - 1].0, steps[i - 1].1, states[w].stores);
    }
  }

  /** The thread waits, or is about to, on what it read after `seen` stores. */
  predicate Sleeps(s: State, t: Thread, seen: nat) {
    t < |s.threads| && (s.threads[t] == WasEqual(seen) || s.threads[t] == Queued(seen))
  }

  lemma SleepsStep(s: State, u: Thread, a: Action, t: Thread, seen: nat)
    requires Enabled(s, u, a) && Sleeps(Do(s, u, a), t, seen)
    ensures Sleeps(s, t, seen) || (u == t && a.Read? && s.threads[t].Checking? && s.word == s.threads[t].expected && s.stores == seen)
    ensures Sleeps(s, t, seen) && u == t ==> a.Join?
  {
  }

  /**
   * A thread is queued only on a word that had the value it expected: it read that value at step `j`, when `seen` stores
   * had been made, and has made no step since but to join the queue.
   */
  lemma {:induction false} SleptOnExpected(states: seq<State>, steps: seq<(Thread, Action)>, i: nat, t: Thread, seen: nat) returns (j: nat)
    requires IsRun(states, steps) && i < |states| && Sleeps(states[i], t, seen)
    ensures j < i && steps[j] == (t, Read) && states[j].threads[t].Checking? && states[j].word == states[j].threads[t].expected
    ensures states[j].stores == seen && forall k :: j < k < i && steps[k].0 == t ==> steps[k].1 == Join
    decreases i
  {
    hide Do, Enabled;
    if i > 0 {
      SleepsStep(states[i - 1], steps[i - 1].0, steps[i - 1].1, t, seen);
      if Sleeps(states[i - 1], t, seen) {
        j := SleptOnExpected(states, steps, i - 1, t, seen);
      } else {
        j := i - 1;
      }
    }
  }

  // ---------- What a call does next ----------

  /** The call a thread is in, with its argument. */
  predicate CalledBy(p: Phase, a: Action) {
    match p
    case HasRef(e) => a == StartWait(e)
    case Checking(e) => a == StartWait(e)
    case Waking(n) => a == StartWake(n)
    case Popping(n) => a == StartWake(n)
    case _ => false
  }

  predicate InCall(s: State, t: Thread) {
    t < |s.threads| && (s.threads[t].HasRef? || s.threads[t].Checking? || s.threads[t].Waking? || s.threads[t].Popping?)
  }

  lemma CallStep(s: State, u: Thread, a: Action, t: Thread)
    requires Enabled(s, u, a) && InCall(Do(s, u, a), t)
    ensures if InCall(s, t) then (u == t ==> a.LockToWait? || a.LockToWake?) && forall b :: CalledBy(s.threads[t], b) ==> CalledBy(Do(s, u, a).threads[t], b)
      else u == t && CalledBy(Do(s, u, a).threads[t], a)
  {
  }

  /** A thread acts on the argument of its call: since then it has only waited for the lock. */
  lemma {:induction false} Argument(states: seq<State>, steps: seq<(Thread, Action)>, i: nat, t: Thread) returns (j: nat)
    requires IsRun(states, steps) && i < |states| && InCall(states[i], t)
    ensures j < i && steps[j].0 == t && CalledBy(states[i].threads[t], steps[j].1)
    ensures forall k :: j < k < i && steps[k].0 == t ==> steps[k].1 == LockToWait || steps[k].1 == LockToWake
    decreases i
  {
    hide Do, Enabled, CalledBy;
    if i > 0 {
      CallStep(states[i - 1], steps[i - 1].0, steps[i - 1].1, t);
      if InCall(states[i - 1], t) {
        j := Argument(states, steps, i - 1, t);
      } else {
        j := i - 1;
      }
    }
  }

  /** The word holds what was stored last. */
  lemma {:induction false} WordIsLast(states: seq<State>, steps: seq<(Thread, Action)>, j: nat, i: nat)
    requires IsRun(states, steps) && j < i < |states| && steps[j].1.Write? && forall k :: j < k < i ==> !steps[k].1.Write?
    ensures states[i].word == steps[j].1.v && states[i].stores == states[j].stores + 1
    decreases i
  {
    var s, t, a := states[i - 1], steps[i - 1].0, steps[i - 1].1;
    if i > j + 1 {
      WordIsLast(states, steps, j, i - 1);
      assert states[i] == Do(s, t, a) && !a.Write?;
    }
  }

  /** The step of a wait after its read: it joins the queue exactly if the word has the value it expects. */
  function AfterRead(s: State, e: nat): Phase {
    if s.word == e then WasEqual(s.stores) else Putting
  }

  /** Whatever the others do, a thread that is not queued stays where it is in its call. */
  lemma OwnPace(s: State, u: Thread, a: Action, t: Thread)
    requires Inv(s) && Enabled(s, u, a) && t < |s.threads| && u != t && !s.threads[t].Queued?
    ensures |Do(s, u, a).threads| == |s.threads| && Do(s, u, a).threads[t] == s.threads[t]
  {
    if a.Pop? {
      var k := |s.queue| - |Do(s, u, a).queue|;
      assert forall v :: v in s.queue[..k] ==> v in s.queue;
    }
  }

  lemma {:induction false} OwnPaceRun(states: seq<State>, steps: seq<(Thread, Action)>, j: nat, k: nat, t: Thread)
    requires IsRun(states, steps) && j <= k < |states| && t < |states[j].threads| && !states[j].threads[t].Queued?
    requires forall m :: j <= m < k ==> steps[m].0 != t
    ensures |states[k].threads| == |states[j].threads| && states[k].threads[t] == states[j].threads[t]
    decreases k
  {
    hide Do, Enabled, Inv, Initial;
    if j < k {
      OwnPaceRun(states, steps, j, k - 1, t);
      RunInv(states, steps, k - 1);
      OwnPace(states[k - 1], steps[k - 1].0, steps[k - 1].1, t);
    }
  }

  /**
   * A wait that reads the value it was called with goes on to join the queue, and one that reads another value returns:
   * whatever happens in between, this is the next step of the thread.
   */
  lemma ReadDecides(states: seq<State>, steps: seq<(Thread, Action)>, j: nat, k: nat, t: Thread) returns (i: nat, expected: nat)
    requires IsRun(states, steps) && j < k < |steps| && steps[j] == (t, Read) && steps[k].0 == t
    requires forall m :: j < m < k ==> steps[m].0 != t
    ensures i < j && steps[i] == (t, StartWait(expected)) && forall m :: i < m < j && steps[m].0 == t ==> steps[m].1 == LockToWait || steps[m].1 == LockToWake
    ensures if states[j].word == expected
      then steps[k].1 == Join && states[k + 1].queue == states[k].queue + [t] && t < |states[k + 1].threads| && states[k + 1].threads[t] == Queued(states[j].stores)
      else steps[k].1 == Put && t !in states[k].queue && t < |states[k + 1].threads| && states[k + 1].threads[t] == User
  {
    RunInv(states, steps, j);
    RunInv(states, steps, k);
    ReadStep(states[j], t);
    i := Argument(states, steps, j, t);
    expected := states[j].threads[t].expected;
    OwnPaceRun(states, steps, j + 1, k, t);
    NextStep(states[k], t, steps[k].1);
  }

  lemma ReadStep(s: State, t: Thread)
    requires Enabled(s, t, Read)
    ensures t < |s.threads| == |Do(s, t, Read).threads| && s.threads[t].Checking? && Do(s, t, Read).threads[t] == AfterRead(s, s.threads[t].expected)
  {
  }

  lemma NextStep(s: State, t: Thread, a: Action)
    requires Inv(s) && Enabled(s, t, a)
    ensures s.threads[t].WasEqual? ==> a == Join && Do(s, t, a).queue == s.queue + [t] && Do(s, t, a).threads[t] == Queued(s.threads[t].seen)
    ensures s.threads[t].Putting? ==> a == Put && t !in s.queue && Do(s, t, a).threads[t] == User
  {
  }

  /** No deadlock: a thread in a call that does not sleep can go on, or the holder of the lock can. */
  lemma CanGoOn(s: State, t: Thread) returns (u: Thread, a: Action)
    requires Inv(s) && t < |s.threads| && !s.threads[t].User? && !s.threads[t].Queued?
    ensures Enabled(s, u, a) && (u == t || (s.lock == u && !Holds(s.threads[t]))) && !s.threads[u].User?
  {
    u := if (s.threads[t].HasRef? || s.threads[t].Waking?) && s.lock != FREE then s.lock else t;
    a := match s.threads[u]
      case HasRef(_) => LockToWait
      case Checking(_) => Read
      case WasEqual(_) => Join
      case Waking(_) => LockToWake
      case Popping(_) => Pop
      case _ => Put;
  }

  // ---------- First in, first out ----------

  /** A count is an unsigned int. */
  ghost predicate CountsFit(s: State) {
    forall t :: 0 <= t < |s.threads| ==> (s.threads[t].Waking? || s.threads[t].Popping?) ==> s.threads[t].n < 0x1_0000_0000
  }

  lemma {:induction false} RunCounts(states: seq<State>, steps: seq<(Thread, Action)>, i: nat)
    requires IsRun(states, steps) && i < |states|
    ensures CountsFit(states[i])
    decreases i
  {
    if i > 0 {
      RunCounts(states, steps, i - 1);
      CountsStep(states[i - 1], steps[i - 1].0, steps[i - 1].1);
    }
  }

  lemma CountsStep(s: State, t: Thread, a: Action)
    requires CountsFit(s) && Enabled(s, t, a)
    ensures CountsFit(Do(s, t, a))
  {
  }

  /** The step of the protocol is what the loop of FutexWaitQueue::Wake does. */
  method WakeAll(s: State, t: Thread) returns (s': State, woken: int)
    requires Enabled(s, t, Pop) && s.threads[t].n < 0x1_0000_0000
    ensures s' == Do(s, t, Pop) && woken == WakeCount(|s.queue|, s.threads[t].n)
  {
    var rest, released;
    rest, released, woken := WakeLoop(s.queue, s.threads[t].n);
    s' := State(s.word, s.stores, s.present, s.refCount, rest, FREE, ReleaseAll(s.threads, released)[t := Putting]);
  }

  /** The time since when the thread has been in the queue. */
  ghost function Joined(states: seq<State>, i: nat, t: Thread): nat
    requires i < |states|
  {
    if i == 0 || t !in states[i - 1].queue then i else Joined(states, i - 1, t)
  }

  lemma {:induction false} JoinedBy(states: seq<State>, i: nat, t: Thread)
    requires i < |states|
    ensures Joined(states, i, t) <= i
    decreases i
  {
    if i > 0 {
      JoinedBy(states, i - 1, t);
    }
  }

  lemma SuffixOrder(l: seq<nat>, k: nat, x: nat, y: nat)
    requires k <= |l| && Ahead(l[k..], x, y)
    ensures Ahead(l, x, y)
  {
    var i, j :| 0 <= i < j < |l[k..]| && l[k..][i] == x && l[k..][j] == y;
    assert l[k + i] == x && l[k + j] == y;
  }

  lemma {:induction false} WithoutOrder(l: seq<nat>, v: nat, x: nat, y: nat)
    requires Distinct(l) && Ahead(Without(l, v), x, y)
    ensures Ahead(l, x, y)
    decreases |l|
  {
    if l != [] {
      var t := Without(l[1..], v);
      if l[0] == v {
        SuffixOrder(l, 1, x, y);
      } else {
        assert Distinct(l[1..]);
        var i, j :| 0 <= i < j < |Without(l, v)| && Without(l, v)[i] == x && Without(l, v)[j] == y;
        if i == 0 {
          WithoutMeaning(l[1..], v);
          assert y == t[j - 1] && y in l[1..];
          var m :| 0 <= m < |l[1..]| && l[1..][m] == y;
          assert l[0] == x && l[m + 1] == y;
        } else {
          assert t[i - 1] == x && t[j - 1] == y;
          WithoutOrder(l[1..], v, x, y);
          SuffixOrder(l, 1, x, y);
        }
      }
    }
  }

  lemma AppendedOrder(l: seq<nat>, z: nat, x: nat, y: nat)
    requires Ahead(l + [z], x, y) && z !in l
    ensures x in l && (y == z || Ahead(l, x, y))
  {
    var r := l + [z];
    var i, j :| 0 <= i < j < |r| && r[i] == x && r[j] == y;
    assert l[i] == x;
    if j < |l| {
      assert l[j] == y;
    }
  }

  lemma BeforeIn(l: seq<nat>, x: nat, y: nat)
    requires Ahead(l, x, y)
    ensures x in l && y in l
  {
  }

  /** A step leaves the order of the threads that stay, and adds only at the end. */
  lemma QueueStep(s: State, t: Thread, a: Action, x: Thread, y: Thread)
    requires Inv(s) && Enabled(s, t, a) && Ahead(Do(s, t, a).queue, x, y)
    ensures x in s.queue && (if y in s.queue then Ahead(s.queue, x, y) else a.Join? && t == y)
  {
    var q := s.queue;
    assert a.Join? ==> t !in q;
    var k := |q| - |Do(s, t, a).queue|;
    hide Ahead, RefInv, LockInv, Without, ReleaseAll;
    if a.Join? {
      AppendedOrder(q, t, x, y);
    } else if a.Pop? {
      SuffixOrder(q, k, x, y);
    } else if a.Interrupt? {
      WithoutOrder(q, a.victim, x, y);
    }
    if Ahead(q, x, y) {
      BeforeIn(q, x, y);
    }
  }

  /** The queue is in the order in which its threads joined it. */
  lemma {:induction false} QueueInOrder(states: seq<State>, steps: seq<(Thread, Action)>, i: nat, x: Thread, y: Thread)
    requires IsRun(states, steps) && i < |states| && Ahead(states[i].queue, x, y)
    ensures Joined(states, i, x) < Joined(states, i, y)
    decreases i
  {
    hide Do, Inv, Enabled, Ahead;
    if i == 0 {
      BeforeIn(states[0].queue, x, y);
    } else {
      var s := states[i - 1];
      RunInv(states, steps, i - 1);
      QueueStep(s, steps[i - 1].0, steps[i - 1].1, x, y);
      if y in s.queue {
        QueueInOrder(states, steps, i - 1, x, y);
      } else {
        JoinedBy(states, i - 1, x);
      }
    }
  }

  /**
   * A Wake of n makes the n threads runnable that have waited longest, or all if fewer wait, or none if n is above INT_MAX;
   * every thread that stays in the queue came later than every thread that leaves it.
   */
  lemma WakesLongest(states: seq<State>, steps: seq<(Thread, Action)>, i: nat) returns (j: nat, n: nat)
    requires IsRun(states, steps) && i < |steps| && steps[i].1 == Pop
    ensures var s, s', t := states[i], states[i + 1], steps[i].0;
      && j < i && steps[j] == (t, StartWake(n)) && (forall k :: j < k < i && steps[k].0 == t ==> steps[k].1 == LockToWait || steps[k].1 == LockToWake)
      && |s.queue| - |s'.queue| == (if n > INT_MAX then 0 else if n < |s.queue| then n else |s.queue|)
      && (forall u :: u in s'.queue ==> u in s.queue)
      && (forall u, v :: u in s.queue && u !in s'.queue && v in s'.queue ==> Joined(states, i, u) < Joined(states, i, v))
  {
    hide Initial;
    RunInv(states, steps, i);
    RunCounts(states, steps, i);
    var s, s', t := states[i], states[i + 1], steps[i].0;
    assert s' == Do(s, t, Pop) && Distinct(s.queue);
    j := Argument(states, steps, i, t);
    n := s.threads[t].n;
    var k := |s.queue| - |s'.queue|;
    assert s'.queue == s.queue[k..];
    hide Inv, Do, Enabled, Ahead, CountsFit, IsRun;
    forall u | u in s'.queue ensures u in s.queue {
      SplitQueue(s.queue, k, u);
    }
    forall u, v | u in s.queue && u !in s'.queue && v in s'.queue ensures Joined(states, i, u) < Joined(states, i, v) {
      SplitBefore(s.queue, k, u, v);
      QueueInOrder(states, steps, i, u, v);
    }
  }

  lemma SplitBefore(q: seq<Thread>, k: nat, u: Thread, v: Thread)
    requires k <= |q| && u in q && u !in q[k..] && v in q[k..]
    ensures Ahead(q, u, v)
  {
    assert q == q[..k] + q[k..];
    var i :| 0 <= i < |q| && q[i] == u;
    assert i < k;
    var j :| 0 <= j < |q[k..]| && q[k..][j] == v;
    assert q[i] == u && q[k + j] == v;
  }
}
