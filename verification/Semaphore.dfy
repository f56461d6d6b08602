/** kernel/src/Scheduling/Semaphore.cpp: a counting semaphore with a wait queue; Mutex is Semaphore(1, 1). */
module Semaphores {

  import opened Basics

  type Thread = nat

  /**
   * `popped` are the threads a Signal has made runnable that have not looked at the value again; `spinning` are those
   * that wait without a scheduler. `holders` counts the completed waits that no Signal by the same thread has answered.
   */
  datatype State = State(value: nat, max: nat, queue: seq<Thread>, popped: set<Thread>, spinning: set<Thread>,
                         holders: multiset<Thread>, isRunning: bool)

  /** What happens under the lock, one critical section each. */
  datatype Step = Enter(t: Thread) | Recheck(t: Thread) | Signal(t: Thread) | StartScheduler

  predicate Blocked(s: State, t: Thread) {
    t in s.queue || t in s.popped || t in s.spinning
  }

  predicate Enabled(s: State, a: Step) {
    match a
    case Enter(t) => !Blocked(s, t)
    case Recheck(t) => t in s.popped || t in s.spinning
    case Signal(t) => !Blocked(s, t)
    case StartScheduler => true
  }

  /** The value is taken, or the thread waits: in the queue if there is a scheduler to switch away. */
  function TakeOrWait(s: State, t: Thread): State {
    if s.value > 0 then s.(value := s.value - 1, holders := s.holders + multiset{t})
    else if s.isRunning then s.(queue := s.queue + [t])
    else s.(spinning := s.spinning + {t})
  }

  function Do(s: State, a: Step): State {
    match a
    case Enter(t) => TakeOrWait(s, t)
    case Recheck(t) => TakeOrWait(s.(popped := s.popped - {t}, spinning := s.spinning - {t}), t)
    case Signal(t) =>
      if s.value < s.max then
        var s1 := s.(value := s.value + 1, holders := s.holders - multiset{t});
        if s.isRunning && s.queue != [] then s1.(queue := s.queue[1..], popped := s.popped + {s.queue[0]}) else s1
      else s
    case StartScheduler => s.(isRunning := true)
  }

  /** No lost wakeup: while threads are queued, at least as many are on their way to the value as it is large. */
  ghost predicate Inv(s: State) {
    && s.value <= s.max && Distinct(s.queue)
    && (forall t :: t in s.queue ==> t !in s.popped && t !in s.spinning) && s.popped !! s.spinning
    && (s.queue != [] ==> |s.popped| >= s.value)
    && (!s.isRunning ==> s.queue == [] && s.popped == {})
  }

  lemma WaitInv(s: State, t: Thread)
    requires Inv(s) && !Blocked(s, t)
    ensures Inv(TakeOrWait(s, t))
  {
  }

  lemma StepInv(s: State, a: Step)
    requires Inv(s) && Enabled(s, a)
    ensures Inv(Do(s, a))
  {
    match a
    case Enter(t) => WaitInv(s, t);
    case Recheck(t) => RecheckInv(s, t);
    case Signal(_) =>
      if s.value < s.max && s.isRunning && s.queue != [] {
        PopInv(s);
      }
    case StartScheduler =>
  }

  /** A thread that looks again may find the value taken by a newcomer; then it queues again, and the value is 0. */
  lemma RecheckInv(s: State, t: Thread)
    requires Inv(s) && (t in s.popped || t in s.spinning)
    ensures Inv(Do(s, Recheck(t)))
  {
    var s1 := s.(popped := s.popped - {t}, spinning := s.spinning - {t});
    if s.value == 0 {
      WaitInv(s1, t);
    } else {
      assert t in s.popped ==> |s1.popped| == |s.popped| - 1;
      assert t !in s.popped ==> s1.popped == s.popped;
    }
  }

  lemma PopInv(s: State)
    requires Inv(s) && s.value < s.max && s.queue != []
    ensures Inv(s.(value := s.value + 1, queue := s.queue[1..], popped := s.popped + {s.queue[0]}))
  {
    var q := s.queue[1..];
    assert s.queue[0] in s.queue;
    forall t | t in q ensures t in s.queue && t != s.queue[0] {
      var i :| 0 <= i < |q| && q[i] == t;
      assert s.queue[i + 1] == t;
    }
  }

  /** Threads queued while the value is positive: one of the popped threads can take it now. */
  lemma NoLostWakeup(s: State)
    requires Inv(s) && s.queue != [] && s.value > 0
    ensures exists t :: t in s.popped && t in Do(s, Recheck(t)).holders && Do(s, Recheck(t)).value == s.value - 1
  {
    assert s.popped != {};
    var t :| t in s.popped;
    assert t in Do(s, Recheck(t)).holders;
  }

  // ---------- Runs ----------

  /** A run from a fresh semaphore. */
  ghost predicate IsRun(states: seq<State>, steps: seq<Step>) {
    && |states| == |steps| + 1 && states[0] == State(states[0].value, states[0].max, [], {}, {}, multiset{}, states[0].isRunning)
    && states[0].value <= states[0].max
    && forall i :: 0 <= i < |steps| ==> Enabled(states[i], steps[i]) && states[i + 1] == Do(states[i], steps[i])
  }

  lemma {:induction false} RunInv(states: seq<State>, steps: seq<Step>, i: nat)
    requires IsRun(states, steps) && i < |states|
    ensures Inv(states[i])
    decreases i
  {
    hide Inv, Do;
    if i > 0 {
      RunInv(states, steps, i - 1);
      StepInv(states[i - 1], steps[i - 1]);
    } else {
      FreshInv(states[0]);
    }
  }

  lemma FreshInv(s: State)
    requires s.queue == [] && s.popped == {} && s.spinning == {} && s.value <= s.max
    ensures Inv(s)
  {
  }

  /** Only a thread that holds the semaphore signals it. */
  ghost predicate HoldersSignal(states: seq<State>, steps: seq<Step>) {
    |states| == |steps| + 1 && forall i :: 0 <= i < |steps| && steps[i].Signal? ==> steps[i].t in states[i].holders
  }

  /** Then the value and the holders always add up to the maximum: for a Mutex, to one. */
  lemma {:induction false} Conserved(states: seq<State>, steps: seq<Step>, i: nat)
    requires IsRun(states, steps) && HoldersSignal(states, steps) && states[0].value == states[0].max && i < |states|
    ensures states[i].max == states[0].max && states[i].value + |states[i].holders| == states[0].max
    decreases i
  {
    if i > 0 {
      Conserved(states, steps, i - 1);
      RunInv(states, steps, i - 1);
      var s, a := states[i - 1], steps[i - 1];
      assert states[i] == Do(s, a);
      hide IsRun, Inv;
      if a.Signal? {
        assert |s.holders - multiset{a.t}| == |s.holders| - 1;
      }
    }
  }

  /** Mutual exclusion: a mutex that only its holder unlocks never has two holders. */
  lemma MutualExclusion(states: seq<State>, steps: seq<Step>, i: nat, t: Thread, u: Thread)
    requires IsRun(states, steps) && HoldersSignal(states, steps) && states[0].value == states[0].max == 1 && i < |states|
    requires t in states[i].holders && u in states[i].holders
    ensures t == u && states[i].holders == multiset{t} && states[i].value == 0
  {
    Conserved(states, steps, i);
    var h := states[i].holders;
    assert h == multiset{t} + (h - multiset{t});
    assert |h - multiset{t}| == |h| - 1;
  }

  /** A Signal at the maximum is dropped; where only holders signal, none is. */
  lemma NoSignalDropped(states: seq<State>, steps: seq<Step>, i: nat)
    requires IsRun(states, steps) && HoldersSignal(states, steps) && states[0].value == states[0].max && i < |steps| && steps[i].Signal?
    ensures states[i + 1].value == states[i].value + 1 && |states[i + 1].holders| == |states[i].holders| - 1
  {
    Conserved(states, steps, i);
    Conserved(states, steps, i + 1);
    assert steps[i].t in states[i].holders;
    assert states[i + 1] == Do(states[i], steps[i]);
    var h := states[i].holders;
    assert h == multiset{steps[i].t} + (h - multiset{steps[i].t});
  }

  // ---------- Nobody is forgotten ----------

  /** A thread that waits goes on waiting, unless it looks at the value and takes it. */
  lemma BlockedStep(s: State, a: Step, t: Thread)
    requires Inv(s) && Enabled(s, a) && Blocked(s, t)
    ensures var s' := Do(s, a);
      || Blocked(s', t)
      || (a == Recheck(t) && s.value > 0 && s'.value == s.value - 1 && s'.holders[t] == s.holders[t] + 1)
  {
    if a.Signal? && t in s.queue && s.queue != [] {
      assert s.queue == [s.queue[0]] + s.queue[1..];
    }
  }

  /** In every run a thread that no longer waits has taken the value, by a look of its own. */
  lemma {:induction false} WaitsUntilTaken(states: seq<State>, steps: seq<Step>, i: nat, j: nat, t: Thread) returns (m: nat)
    requires IsRun(states, steps) && i < j < |states| && Blocked(states[i], t) && !Blocked(states[j], t)
    ensures i <= m < j && steps[m] == Recheck(t) && Blocked(states[m], t)
    ensures states[m].value > 0 && states[m + 1].holders[t] == states[m].holders[t] + 1
    decreases j - i
  {
    hide Blocked, Do, Inv, Enabled;
    RunInv(states, steps, i);
    BlockedStep(states[i], steps[i], t);
    if Blocked(states[i + 1], t) {
      m := WaitsUntilTaken(states, steps, i + 1, j, t);
    } else {
      m := i;
    }
  }

  /** A thread holds the semaphore only after it took the value; it holds it until it signals. */
  lemma HoldersStep(s: State, a: Step, t: Thread)
    ensures var s' := Do(s, a);
      && (s'.holders[t] > s.holders[t] ==> (a == Enter(t) || a == Recheck(t)) && s.value > 0 && s'.value == s.value - 1)
      && (s'.holders[t] < s.holders[t] ==> a == Signal(t) && s'.value == s.value + 1)
  {
  }

  /** There is a scheduler to switch away to exactly from the step that starts it. */
  lemma {:induction false} RunningSince(states: seq<State>, steps: seq<Step>, i: nat)
    requires IsRun(states, steps) && i < |states|
    ensures states[i].isRunning <==> states[0].isRunning || exists j :: 0 <= j < i && steps[j].StartScheduler?
    decreases i
  {
    hide Enabled, Inv;
    if i > 0 {
      RunningSince(states, steps, i - 1);
    }
  }

  // ---------- First in, first out ----------

  /** The time since when the thread has been in the queue. */
  ghost function Joined(states: seq<State>, i: nat, t: Thread): nat
    requires i < |states|
  {
    if i == 0 || t !in states[i - 1].queue then i else Joined(states, i - 1, t)
  }

  /** What a step does to the queue: nothing, one thread more at its end, or the first thread made runnable. */
  lemma QueueStep(s: State, a: Step)
    requires Inv(s) && Enabled(s, a)
    ensures var s' := Do(s, a);
      || s'.queue == s.queue
      || ((a.Enter? || a.Recheck?) && a.t !in s.queue && s'.queue == s.queue + [a.t])
      || (a.Signal? && s.queue != [] && s.value < s.max && s.isRunning && s.queue == [s.queue[0]] + s'.queue && s'.popped == s.popped + {s.queue[0]})
    ensures a.Signal? && s.queue != [] && s.value < s.max && s.isRunning ==> |Do(s, a).queue| < |s.queue|
  {
  }

  /** The queue is in the order in which its threads joined it. */
  lemma {:induction false} QueueInOrder(states: seq<State>, steps: seq<Step>, i: nat, x: nat, y: nat)
    requires IsRun(states, steps) && i < |states| && x < y < |states[i].queue|
    ensures Joined(states, i, states[i].queue[x]) < Joined(states, i, states[i].queue[y]) <= i
    decreases i
  {
    hide Do, Inv, Enabled;
    if i > 0 {
      var s, q := states[i - 1], states[i].queue;
      RunInv(states, steps, i - 1);
      QueueStep(s, steps[i - 1]);
      if |q| == |s.queue| + 1 {
        assert q[x] == s.queue[x] && s.queue[x] in s.queue;
        JoinedBy(states, i - 1, q[x]);
        if y < |s.queue| {
          assert s.queue[y] in s.queue;
          QueueInOrder(states, steps, i - 1, x, y);
        }
      } else {
        var d := if |q| == |s.queue| then 0 else 1;
        assert q[x] == s.queue[x + d] && q[y] == s.queue[y + d] && q[x] in s.queue && q[y] in s.queue;
        QueueInOrder(states, steps, i - 1, x + d, y + d);
      }
    }
  }

  lemma {:induction false} JoinedBy(states: seq<State>, i: nat, t: Thread)
    requires i < |states|
    ensures Joined(states, i, t) <= i
    decreases i
  {
    if i > 0 {
      JoinedBy(states, i - 1, t);
    }
  }

  /** A Signal below the maximum makes exactly one queued thread runnable, the one that has waited longest. */
  lemma FirstInFirstOut(states: seq<State>, steps: seq<Step>, i: nat) returns (t: Thread)
    requires IsRun(states, steps) && i < |steps| && steps[i].Signal?
    requires states[i].value < states[i].max && states[i].isRunning && states[i].queue != []
    ensures t in states[i].queue && t !in states[i + 1].queue && states[i + 1].popped == states[i].popped + {t}
    ensures forall u :: u in states[i].queue && u != t ==> u in states[i + 1].queue && Joined(states, i, t) < Joined(states, i, u)
  {
    RunInv(states, steps, i);
    var s, q := states[i], states[i].queue;
    assert Distinct(q);
    hide Do, Inv, Enabled;
    QueueStep(s, steps[i]);
    t := q[0];
    forall u | u in q && u != t ensures u in states[i + 1].queue && Joined(states, i, t) < Joined(states, i, u) {
      var y :| 0 <= y < |q| && q[y] == u;
      QueueInOrder(states, steps, i, 0, y);
    }
    assert t !in states[i + 1].queue;
  }

  // ---------- The critical sections ----------

  class Semaphore {
    var value: nat
    const maxValue: nat
    var waiting: seq<Thread>
    ghost var popped: set<Thread>
    ghost var spinning: set<Thread>
    ghost var holders: multiset<Thread>
    var isRunning: bool

    ghost function Now(): State
      reads this
    {
      State(value, maxValue, waiting, popped, spinning, holders, isRunning)
    }

    constructor (value: nat, maxValue: nat, isRunning: bool)
      requires value <= maxValue
      ensures Now() == State(value, maxValue, [], {}, {}, multiset{}, isRunning) && Inv(Now())
    {
      this.value, this.maxValue, this.isRunning := value, maxValue, isRunning;
      waiting, popped, spinning, holders := [], {}, {}, multiset{};
    }

    /** The value is taken, or the thread is queued. */
    method TryTake(t: Thread) returns (taken: bool)
      modifies this
      ensures Now() == TakeOrWait(old(Now()), t) && (taken <==> old(value) > 0)
    {
      taken := value > 0;
      if taken {
        value := value - 1;
        holders := holders + multiset{t};
      } else if isRunning {
        waiting := waiting + [t];
      } else {
        spinning := spinning + {t};
      }
    }

    /** Wait, from the call until it returns or switches away. */
    method Wait(t: Thread) returns (taken: bool)
      requires Inv(Now()) && Enabled(Now(), Enter(t))
      modifies this
      ensures Now() == Do(old(Now()), Enter(t)) && Inv(Now())
      ensures taken <==> old(value) > 0
    {
      StepInv(Now(), Enter(t));
      hide Inv;
      taken := TryTake(t);
    }

    /** Wait, from the moment the thread runs again. */
    method Resume(t: Thread) returns (taken: bool)
      requires Inv(Now()) && Enabled(Now(), Recheck(t))
      modifies this
      ensures Now() == Do(old(Now()), Recheck(t)) && Inv(Now())
      ensures taken <==> old(value) > 0
    {
      StepInv(Now(), Recheck(t));
      hide Inv;
      popped, spinning := popped - {t}, spinning - {t};
      taken := TryTake(t);
    }

    method Signal(ghost t: Thread)
      requires Inv(Now()) && !Blocked(Now(), t)
      modifies this
      ensures Now() == Do(old(Now()), Step.Signal(t)) && Inv(Now())
    {
      StepInv(Now(), Step.Signal(t));
      hide Inv;
      if value < maxValue {
        value, holders := value + 1, holders - multiset{t};
        if isRunning && |waiting| > 0 {
          popped := popped + {waiting[0]};
          waiting := waiting[1..];
        }
      }
    }
  }
}
