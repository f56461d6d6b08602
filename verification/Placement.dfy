/** kernel/src/Scheduling/Scheduler.cpp: where threads are. */
module Placement {

  // Every step of scheduling, ticking, sleeping, blocking, waking, stealing and exiting moves threads between the
  // places of the whole system.

  import opened Basics

  type Thread = nat

  /**
   * One processor. `leaving` is the thread RemoveCurrentThread took off the processor, until it is put somewhere;
   * `carried` are threads popped from another list and not yet put back (woken, or stolen).
   */
  datatype Cpu = Cpu(current: Option<Thread>, leaving: Option<Thread>, carried: seq<Thread>, queues: seq<seq<Thread>>, sleeping: seq<Thread>)

  /** All threads but the idle ones: `nice` is the level of a thread's process, `info` the processor in its CPUInfo. */
  datatype State = State(cpus: seq<Cpu>, waits: seq<seq<Thread>>, dead: seq<Thread>, live: set<Thread>,
                         nice: map<Thread, nat>, info: map<Thread, nat>)

  datatype Action =
    | Schedule(t: Thread)             // ScheduleThread of a new thread
    | PickOwn(level: nat)             // PickNext
    | StealFrom(victim: nat, level: nat) | RunStolen(index: nat)
    | Requeue                         // TimerTick: the time slice is used up
    | WakeSleeper(index: nat)         // TimerTick: the time is over
    | RemoveCurrent                   // RemoveCurrentThread
    | FallAsleep                      // Yield after SleepCurrentThread
    | Block(queue: nat)               // Semaphore::Wait, FutexWaitQueue::Wait
    | Exit                            // DeleteThread
    | PopWaiter(queue: nat, index: nat)  // Semaphore::Signal, FutexWaitQueue::Wake, FutexWaitQueue::Remove
    | AddExisting(index: nat)         // AddExistingThread
    | Reap                            // HandleDeadThreads

  predicate Enabled(s: State, p: nat, a: Action) {
    && p < |s.cpus|
    && var c := s.cpus[p];
       match a
       case Schedule(t) => t !in s.live && t in s.nice && s.nice[t] < NICE_LEVELS
       case PickOwn(l) => c.current.None? && c.leaving.None? && l < |c.queues| && c.queues[l] != []
       case StealFrom(v, l) => c.current.None? && c.leaving.None? && v < |s.cpus| && v != p && l < |s.cpus[v].queues| && s.cpus[v].queues[l] != []
       case RunStolen(i) => c.current.None? && c.leaving.None? && i < |c.carried|
       case Requeue => c.current.Some?
       case WakeSleeper(i) => i < |c.sleeping|
       case RemoveCurrent => c.current.Some? && c.leaving.None?
       case FallAsleep => c.leaving.Some?
       case Block(q) => c.leaving.Some? && q < |s.waits|
       case Exit => c.leaving.Some?
       case PopWaiter(q, i) => q < |s.waits| && i < |s.waits[q]|
       case AddExisting(i) => i < |c.carried|
       case Reap => s.dead != []
  }

  /** pushBack onto the queue of the thread's level. */
  function Push(c: Cpu, level: nat, t: Thread): Cpu {
    if level < |c.queues| then c.(queues := c.queues[level := c.queues[level] + [t]]) else c
  }

  function With(s: State, p: nat, c: Cpu): State {
    if p < |s.cpus| then s.(cpus := s.cpus[p := c]) else s
  }

  function LevelOf(s: State, t: Thread): nat {
    if t in s.nice then s.nice[t] else 0
  }

  function Do(s: State, p: nat, a: Action): State
    requires Enabled(s, p, a)
  {
    var c := s.cpus[p];
    match a
    case Schedule(t) => With(s.(live := s.live + {t}, info := s.info[t := p]), p, Push(c, s.nice[t], t))
    case PickOwn(l) => With(s, p, c.(current := Some(c.queues[l][0]), queues := c.queues[l := c.queues[l][1..]]))
    case StealFrom(v, l) =>
      var victim := s.cpus[v];
      var s1 := With(s, v, victim.(queues := victim.queues[l := victim.queues[l][1..]]));
      With(s1, p, c.(carried := c.carried + [victim.queues[l][0]]))
    case RunStolen(i) => With(s.(info := s.info[c.carried[i] := p]), p, c.(current := Some(c.carried[i]), carried := WithoutAt(c.carried, i)))
    case Requeue => With(s, p, Push(c.(current := None), LevelOf(s, c.current.value), c.current.value))
    case WakeSleeper(i) => With(s, p, Push(c.(sleeping := WithoutAt(c.sleeping, i)), LevelOf(s, c.sleeping[i]), c.sleeping[i]))
    case RemoveCurrent => With(s, p, c.(current := None, leaving := c.current))
    case FallAsleep => With(s, p, c.(leaving := None, sleeping := c.sleeping + [c.leaving.value]))
    case Block(q) => With(s.(waits := s.waits[q := s.waits[q] + [c.leaving.value]]), p, c.(leaving := None))
    case Exit => With(s.(dead := s.dead + [c.leaving.value]), p, c.(leaving := None))
    case PopWaiter(q, i) => With(s.(waits := s.waits[q := WithoutAt(s.waits[q], i)]), p, c.(carried := c.carried + [s.waits[q][i]]))
    case AddExisting(i) =>
      var t := c.carried[i];
      With(s.(info := s.info[t := p]), p, Push(c.(carried := WithoutAt(c.carried, i)), LevelOf(s, t), t))
    case Reap => s.(dead := s.dead[1..], live := s.live - {s.dead[0]})
  }

  // ---------- Counting places ----------

  function Maybe(o: Option<Thread>, t: Thread): nat {
    if o == Some(t) then 1 else 0
  }

  function InList(l: seq<Thread>, t: Thread): nat {
    multiset(l)[t]
  }

  function InLists(ls: seq<seq<Thread>>, t: Thread): nat {
    if ls == [] then 0 else InList(ls[0], t) + InLists(ls[1..], t)
  }

  function OnCpu(c: Cpu, t: Thread): nat {
    Maybe(c.current, t) + Maybe(c.leaving, t) + InList(c.carried, t) + InLists(c.queues, t) + InList(c.sleeping, t)
  }

  function OnCpus(cs: seq<Cpu>, t: Thread): nat {
    if cs == [] then 0 else OnCpu(cs[0], t) + OnCpus(cs[1..], t)
  }

  /** The number of places a thread is in. */
  function Places(s: State, t: Thread): nat {
    OnCpus(s.cpus, t) + InLists(s.waits, t) + InList(s.dead, t)
  }

  lemma {:induction false} ListsUpdate(ls: seq<seq<Thread>>, i: nat, l: seq<Thread>, t: Thread)
    requires i < |ls|
    ensures InLists(ls[i := l], t) == InLists(ls, t) - InList(ls[i], t) + InList(l, t)
    decreases |ls|
  {
    hide InList;
    if i > 0 {
      assert ls[i := l][1..] == ls[1..][i - 1 := l];
      ListsUpdate(ls[1..], i - 1, l, t);
    } else {
      assert ls[i := l][1..] == ls[1..];
    }
  }

  lemma {:induction false} CpusUpdate(cs: seq<Cpu>, i: nat, c: Cpu, t: Thread)
    requires i < |cs|
    ensures OnCpus(cs[i := c], t) == OnCpus(cs, t) - OnCpu(cs[i], t) + OnCpu(c, t)
    decreases |cs|
  {
    hide OnCpu;
    if i > 0 {
      assert cs[i := c][1..] == cs[1..][i - 1 := c];
      CpusUpdate(cs[1..], i - 1, c, t);
    } else {
      assert cs[i := c][1..] == cs[1..];
    }
  }

  lemma Dropped(l: seq<Thread>, i: nat, t: Thread)
    requires i < |l|
    ensures InList(WithoutAt(l, i), t) == InList(l, t) - (if t == l[i] then 1 else 0)
  {
    assert l == l[..i] + [l[i]] + l[i + 1..];
  }

  lemma Tail(l: seq<Thread>, t: Thread)
    requires l != []
    ensures InList(l[1..], t) == InList(l, t) - (if t == l[0] then 1 else 0)
  {
    assert l == [l[0]] + l[1..];
  }

  lemma Appended(l: seq<Thread>, x: Thread, t: Thread)
    ensures InList(l + [x], t) == InList(l, t) + (if t == x then 1 else 0)
  {
  }

  lemma Pushed(c: Cpu, level: nat, x: Thread, t: Thread)
    requires level < |c.queues|
    ensures OnCpu(Push(c, level, x), t) == OnCpu(c, t) + (if t == x then 1 else 0)
  {
    hide InList;
    ListsUpdate(c.queues, level, c.queues[level] + [x], t);
    Appended(c.queues[level], x, t);
  }

  lemma Popped(c: Cpu, level: nat, t: Thread)
    requires level < |c.queues| && c.queues[level] != []
    ensures OnCpu(c.(queues := c.queues[level := c.queues[level][1..]]), t) == OnCpu(c, t) - (if t == c.queues[level][0] then 1 else 0)
  {
    hide InList;
    ListsUpdate(c.queues, level, c.queues[level][1..], t);
    Tail(c.queues[level], t);
  }

  // ---------- The invariant ----------

  /** A processor's threads name it, and its queues hold threads of their level. */
  ghost predicate HomedCpu(c: Cpu, info: map<Thread, nat>, nice: map<Thread, nat>, p: nat) {
    && |c.queues| == NICE_LEVELS
    && (forall l, t :: 0 <= l < |c.queues| && t in c.queues[l] ==> t in info && info[t] == p && t in nice && nice[t] == l)
    && (forall t :: t in c.sleeping ==> t in info && info[t] == p)
    && (c.current.Some? ==> c.current.value in info && info[c.current.value] == p)
    && (c.leaving.Some? ==> c.leaving.value in info && info[c.leaving.value] == p)
  }

  ghost predicate Homed(s: State, p: nat) {
    p < |s.cpus| && HomedCpu(s.cpus[p], s.info, s.nice, p)
  }

  /** Every live thread is in exactly one place, and in the right one. */
  ghost predicate Inv(s: State) {
    && (forall t: Thread :: Places(s, t) == if t in s.live then 1 else 0)
    && (forall t :: t in s.live ==> t in s.nice && s.nice[t] < NICE_LEVELS)
    && forall p :: 0 <= p < |s.cpus| ==> Homed(s, p)
  }

  // ---------- A thread in a place is live ----------

  lemma {:induction false} SomeList(ls: seq<seq<Thread>>, i: nat, t: Thread)
    requires i < |ls| && t in ls[i]
    ensures InLists(ls, t) >= 1
    decreases |ls|
  {
    if i > 0 {
      SomeList(ls[1..], i - 1, t);
    }
  }

  lemma {:induction false} SomeCpu(cs: seq<Cpu>, p: nat, t: Thread)
    requires p < |cs| && OnCpu(cs[p], t) >= 1
    ensures OnCpus(cs, t) >= OnCpu(cs[p], t)
    decreases |cs|
  {
    hide OnCpu;
    if p > 0 {
      SomeCpu(cs[1..], p - 1, t);
    }
  }

  /** The thread is somewhere on processor `p`. */
  predicate Sits(c: Cpu, t: Thread) {
    c.current == Some(t) || c.leaving == Some(t) || t in c.carried || t in c.sleeping || exists l :: 0 <= l < |c.queues| && t in c.queues[l]
  }

  lemma SitsCounts(c: Cpu, t: Thread)
    requires Sits(c, t)
    ensures OnCpu(c, t) >= 1
  {
    if l :| 0 <= l < |c.queues| && t in c.queues[l] {
      SomeList(c.queues, l, t);
    }
  }

  lemma SitterLives(s: State, p: nat, t: Thread)
    requires Inv(s) && p < |s.cpus| && Sits(s.cpus[p], t)
    ensures t in s.live && t in s.nice && s.nice[t] < NICE_LEVELS && LevelOf(s, t) == s.nice[t] && Places(s, t) == 1
  {
    hide OnCpu, OnCpus, Sits, Homed;
    SitsCounts(s.cpus[p], t);
    SomeCpu(s.cpus, p, t);
  }

  /** No thread sits on two processors. */
  lemma {:induction false} TwoCpus(cs: seq<Cpu>, p: nat, q: nat, t: Thread)
    requires p < q < |cs| && OnCpu(cs[p], t) >= 1 && OnCpu(cs[q], t) >= 1
    ensures OnCpus(cs, t) >= 2
    decreases |cs|
  {
    hide OnCpu;
    if p > 0 {
      TwoCpus(cs[1..], p - 1, q - 1, t);
    } else {
      SomeCpu(cs[1..], q - 1, t);
    }
  }

  // ---------- Steps keep the count ----------

  /** What one step adds to the places of a thread. */
  function Gained(s: State, a: Action, t: Thread): int {
    if a == Schedule(t) then 1 else if a.Reap? && s.dead != [] && s.dead[0] == t then -1 else 0
  }

  function One(x: Thread, t: Thread): int {
    if x == t then 1 else 0
  }

  /** The actions that change one processor only, and what they add to it. */
  predicate IsLocal(a: Action) {
    !a.StealFrom? && !a.Reap?
  }

  function LocalGain(s: State, p: nat, a: Action, t: Thread): int
    requires Enabled(s, p, a)
  {
    match a
    case Schedule(x) => One(x, t)
    case Block(_) => -One(s.cpus[p].leaving.value, t)
    case Exit => -One(s.cpus[p].leaving.value, t)
    case PopWaiter(q, i) => One(s.waits[q][i], t)
    case _ => 0
  }

  lemma PushingCount(s: State, p: nat, a: Action, t: Thread)
    requires Inv(s) && Enabled(s, p, a) && (a.Schedule? || a.Requeue? || a.WakeSleeper? || a.AddExisting?)
    ensures OnCpu(Do(s, p, a).cpus[p], t) == OnCpu(s.cpus[p], t) + LocalGain(s, p, a, t)
  {
    var c := s.cpus[p];
    assert Homed(s, p);
    if a.Schedule? {
      Pushed(c, s.nice[a.t], a.t, t);
    } else {
      var x := if a.Requeue? then c.current.value else if a.WakeSleeper? then c.sleeping[a.index] else c.carried[a.index];
      var c1 := if a.Requeue? then c.(current := None) else if a.WakeSleeper? then c.(sleeping := WithoutAt(c.sleeping, a.index)) else c.(carried := WithoutAt(c.carried, a.index));
      assert Sits(c, x);
      SitterLives(s, p, x);
      if a.WakeSleeper? {
        Dropped(c.sleeping, a.index, t);
      } else if a.AddExisting? {
        Dropped(c.carried, a.index, t);
      }
      hide Inv, InLists, InList, WithoutAt;
      assert OnCpu(c1, t) == OnCpu(c, t) - One(x, t);
      Pushed(c1, LevelOf(s, x), x, t);
    }
  }

  lemma MovingCount(s: State, p: nat, a: Action, t: Thread)
    requires Enabled(s, p, a) && IsLocal(a) && !(a.Schedule? || a.Requeue? || a.WakeSleeper? || a.AddExisting?)
    ensures OnCpu(Do(s, p, a).cpus[p], t) == OnCpu(s.cpus[p], t) + LocalGain(s, p, a, t)
  {
    var c := s.cpus[p];
    if a.PickOwn? {
      Popped(c, a.level, t);
    } else if a.RunStolen? {
      Dropped(c.carried, a.index, t);
    } else if a.FallAsleep? {
      Appended(c.sleeping, c.leaving.value, t);
    } else if a.PopWaiter? {
      Appended(c.carried, s.waits[a.queue][a.index], t);
    }
    hide InLists, InList, WithoutAt;
  }

  /** What the wait queues and the dead list gain. */
  lemma SharedCount(s: State, p: nat, a: Action, t: Thread)
    requires Enabled(s, p, a) && IsLocal(a)
    ensures var s' := Do(s, p, a);
      InLists(s'.waits, t) + InList(s'.dead, t) == InLists(s.waits, t) + InList(s.dead, t) + Gained(s, a, t) - LocalGain(s, p, a, t)
  {
    var c := s.cpus[p];
    if a.Block? {
      ListsUpdate(s.waits, a.queue, s.waits[a.queue] + [c.leaving.value], t);
      Appended(s.waits[a.queue], c.leaving.value, t);
    } else if a.Exit? {
      Appended(s.dead, c.leaving.value, t);
    } else if a.PopWaiter? {
      ListsUpdate(s.waits, a.queue, WithoutAt(s.waits[a.queue], a.index), t);
      Dropped(s.waits[a.queue], a.index, t);
    }
    hide InLists, InList, WithoutAt;
  }

  lemma LocalShape(s: State, p: nat, a: Action)
    requires Enabled(s, p, a) && IsLocal(a)
    ensures Do(s, p, a).cpus == s.cpus[p := Do(s, p, a).cpus[p]] && |Do(s, p, a).cpus| == |s.cpus|
  {
  }

  lemma LocalCount(s: State, p: nat, a: Action, t: Thread)
    requires Inv(s) && Enabled(s, p, a) && IsLocal(a)
    ensures Places(Do(s, p, a), t) == Places(s, t) + Gained(s, a, t)
  {
    LocalShape(s, p, a);
    if a.Schedule? || a.Requeue? || a.WakeSleeper? || a.AddExisting? {
      PushingCount(s, p, a, t);
    } else {
      MovingCount(s, p, a, t);
    }
    SharedCount(s, p, a, t);
    hide Do, Inv, OnCpu, OnCpus, InLists, InList;
    CpusUpdate(s.cpus, p, Do(s, p, a).cpus[p], t);
  }

  /** The victim and the thief after a theft. */
  function Robbed(s: State, v: nat, l: nat): Cpu
    requires v < |s.cpus| && l < |s.cpus[v].queues| && s.cpus[v].queues[l] != []
  {
    s.cpus[v].(queues := s.cpus[v].queues[l := s.cpus[v].queues[l][1..]])
  }

  lemma StealShape(s: State, p: nat, v: nat, l: nat)
    requires Enabled(s, p, StealFrom(v, l))
    ensures p < |s.cpus| && v < |s.cpus| && v != p && l < |s.cpus[v].queues| && s.cpus[v].queues[l] != []
    ensures Do(s, p, StealFrom(v, l)) ==
      s.(cpus := s.cpus[v := Robbed(s, v, l)][p := s.cpus[p].(carried := s.cpus[p].carried + [s.cpus[v].queues[l][0]])])
  {
  }

  lemma TwoUpdates(cs: seq<Cpu>, v: nat, p: nat, v1: Cpu, c1: Cpu, t: Thread, d: int)
    requires v < |cs| && p < |cs| && v != p && OnCpu(v1, t) == OnCpu(cs[v], t) - d && OnCpu(c1, t) == OnCpu(cs[p], t) + d
    ensures OnCpus(cs[v := v1][p := c1], t) == OnCpus(cs, t)
  {
    hide OnCpu, OnCpus;
    CpusUpdate(cs, v, v1, t);
    CpusUpdate(cs[v := v1], p, c1, t);
  }

  lemma Carries(c: Cpu, x: Thread, t: Thread)
    ensures OnCpu(c.(carried := c.carried + [x]), t) == OnCpu(c, t) + One(x, t)
  {
    Appended(c.carried, x, t);
    hide InLists, InList;
  }

  lemma StealCount(s: State, p: nat, v: nat, l: nat, t: Thread)
    requires Enabled(s, p, StealFrom(v, l))
    ensures Places(Do(s, p, StealFrom(v, l)), t) == Places(s, t)
  {
    hide InLists, OnCpus, OnCpu, InList, Do, Enabled;
    StealShape(s, p, v, l);
    var c, x := s.cpus[p], s.cpus[v].queues[l][0];
    Popped(s.cpus[v], l, t);
    Carries(c, x, t);
    TwoUpdates(s.cpus, v, p, Robbed(s, v, l), c.(carried := c.carried + [x]), t, One(x, t));
  }

  lemma SteppedCount(s: State, p: nat, a: Action, t: Thread)
    requires Inv(s) && Enabled(s, p, a)
    ensures Places(Do(s, p, a), t) == Places(s, t) + Gained(s, a, t)
  {
    hide Inv, OnCpus, InLists;
    if a.StealFrom? {
      StealCount(s, p, a.victim, a.level, t);
    } else if a.Reap? {
      Tail(s.dead, t);
    } else {
      LocalCount(s, p, a, t);
    }
  }

  // ---------- Steps keep threads at home ----------

  lemma NotElsewhere(s: State, p: nat, q: nat, x: Thread)
    requires Inv(s) && p < |s.cpus| && q < |s.cpus| && p != q && Sits(s.cpus[p], x)
    ensures !Sits(s.cpus[q], x)
  {
    hide OnCpu, OnCpus, Sits, Homed;
    assert Places(s, x) <= 1;
    if Sits(s.cpus[q], x) {
      SitsCounts(s.cpus[p], x);
      SitsCounts(s.cpus[q], x);
      if p < q {
        TwoCpus(s.cpus, p, q, x);
      } else {
        TwoCpus(s.cpus, q, p, x);
      }
      assert false;
    }
  }

  lemma DeadNowhere(s: State, q: nat, x: Thread)
    requires Inv(s) && q < |s.cpus| && x !in s.live
    ensures !Sits(s.cpus[q], x)
  {
    hide Inv, OnCpus, Sits, Homed;
    if Sits(s.cpus[q], x) {
      SitterLives(s, q, x);
      assert false;
    }
  }

  /** The thread whose CPUInfo an action rewrites. */
  function Rewritten(s: State, p: nat, a: Action): Option<Thread>
    requires Enabled(s, p, a)
  {
    match a
    case Schedule(t) => Some(t)
    case RunStolen(i) => Some(s.cpus[p].carried[i])
    case AddExisting(i) => Some(s.cpus[p].carried[i])
    case _ => None
  }

  lemma RewrittenHere(s: State, p: nat, a: Action, q: nat)
    requires Inv(s) && Enabled(s, p, a) && q < |s.cpus| && p != q
    ensures Rewritten(s, p, a).Some? ==> !Sits(s.cpus[q], Rewritten(s, p, a).value)
  {
    if a.Schedule? {
      DeadNowhere(s, q, a.t);
    } else if a.RunStolen? || a.AddExisting? {
      assert Sits(s.cpus[p], s.cpus[p].carried[a.index]);
      NotElsewhere(s, p, q, s.cpus[p].carried[a.index]);
    }
    hide Inv, Sits;
  }

  lemma InfoElsewhere(c: Cpu, info: map<Thread, nat>, nice: map<Thread, nat>, q: nat, x: Thread, p: nat)
    requires HomedCpu(c, info, nice, q) && !Sits(c, x)
    ensures HomedCpu(c, info[x := p], nice, q)
  {
  }

  lemma InfoHere(c: Cpu, info: map<Thread, nat>, nice: map<Thread, nat>, p: nat, x: Thread)
    requires HomedCpu(c, info, nice, p)
    ensures HomedCpu(c, info[x := p], nice, p)
  {
  }

  lemma PushHome(c: Cpu, info: map<Thread, nat>, nice: map<Thread, nat>, p: nat, x: Thread)
    requires HomedCpu(c, info, nice, p) && x in info && info[x] == p && x in nice && nice[x] < NICE_LEVELS
    ensures HomedCpu(Push(c, nice[x], x), info, nice, p)
  {
  }

  lemma PopHome(c: Cpu, info: map<Thread, nat>, nice: map<Thread, nat>, p: nat, l: nat)
    requires HomedCpu(c, info, nice, p) && l < |c.queues| && c.queues[l] != []
    ensures HomedCpu(c.(queues := c.queues[l := c.queues[l][1..]]), info, nice, p)
    ensures c.queues[l][0] in info && info[c.queues[l][0]] == p
  {
    assert c.queues[l][0] in c.queues[l];
  }

  lemma OtherHome(s: State, p: nat, a: Action, q: nat)
    requires Inv(s) && Enabled(s, p, a) && q < |s.cpus| && p != q
    ensures Homed(Do(s, p, a), q)
  {
    hide Inv, Sits, HomedCpu, Do, Enabled;
    var c := s.cpus[q];
    HomeOf(s, q);
    if a.StealFrom? && q == a.victim {
      StealShape(s, p, q, a.level);
      PopHome(c, s.info, s.nice, q, a.level);
    } else {
      RewrittenHere(s, p, a, q);
      var x := Rewritten(s, p, a);
      if x.Some? {
        InfoElsewhere(c, s.info, s.nice, q, x.value, p);
      }
      OtherShape(s, p, a, q);
    }
  }

  lemma OtherShape(s: State, p: nat, a: Action, q: nat)
    requires Enabled(s, p, a) && q < |s.cpus| && p != q && !(a.StealFrom? && q == a.victim)
    ensures var s' := Do(s, p, a);
      |s'.cpus| == |s.cpus| && s'.cpus[q] == s.cpus[q] && s'.nice == s.nice && s'.info == match Rewritten(s, p, a) case Some(x) => s.info[x := p] case None => s.info
  {
  }

  /** A processor stays at home when threads leave it, or move between its places. */
  lemma FewerHome(c: Cpu, c': Cpu, info: map<Thread, nat>, nice: map<Thread, nat>, p: nat)
    requires HomedCpu(c, info, nice, p) && c'.queues == c.queues
    requires forall t :: t in c'.sleeping ==> t in c.sleeping || c.leaving == Some(t)
    requires c'.current.None? || c'.current == c.current
    requires c'.leaving.None? || c'.leaving == c.leaving || c'.leaving == c.current
    ensures HomedCpu(c', info, nice, p)
  {
  }

  lemma PushingHome(s: State, p: nat, a: Action)
    requires Inv(s) && Enabled(s, p, a) && (a.Requeue? || a.WakeSleeper? || a.AddExisting?)
    ensures Homed(Do(s, p, a), p)
  {
    hide Inv, HomedCpu, Sits;
    var c := s.cpus[p];
    HomeOf(s, p);
    var x := if a.Requeue? then c.current.value else if a.WakeSleeper? then c.sleeping[a.index] else c.carried[a.index];
    SitsAt(s, p, a);
    SitterLives(s, p, x);
    if a.Requeue? {
      FewerHome(c, c.(current := None), s.info, s.nice, p);
      PushHome(c.(current := None), s.info, s.nice, p, x);
    } else if a.WakeSleeper? {
      var c1 := c.(sleeping := WithoutAt(c.sleeping, a.index));
      FewerHome(c, c1, s.info, s.nice, p);
      PushHome(c1, s.info, s.nice, p, x);
    } else {
      var c1 := c.(carried := WithoutAt(c.carried, a.index));
      FewerHome(c, c1, s.info, s.nice, p);
      InfoHere(c1, s.info, s.nice, p, x);
      PushHome(c1, s.info[x := p], s.nice, p, x);
    }
  }

  lemma HomeOf(s: State, p: nat)
    requires Inv(s) && p < |s.cpus|
    ensures HomedCpu(s.cpus[p], s.info, s.nice, p)
  {
    assert Homed(s, p);
  }

  /** The thread a timer tick or a waker puts on a queue sits on this processor, and the first two name it. */
  lemma SitsAt(s: State, p: nat, a: Action)
    requires Inv(s) && Enabled(s, p, a) && (a.Requeue? || a.WakeSleeper? || a.AddExisting?)
    ensures var c := s.cpus[p];
      var x := if a.Requeue? then c.current.value else if a.WakeSleeper? then c.sleeping[a.index] else c.carried[a.index];
      Sits(c, x) && (!a.AddExisting? ==> x in s.info && s.info[x] == p)
  {
    assert Homed(s, p);
  }

  lemma OwnHome(s: State, p: nat, a: Action)
    requires Inv(s) && Enabled(s, p, a)
    ensures Homed(Do(s, p, a), p)
  {
    hide Inv, HomedCpu;
    var c := s.cpus[p];
    HomeOf(s, p);
    if a.Schedule? {
      InfoHere(c, s.info, s.nice, p, a.t);
      PushHome(c, s.info[a.t := p], s.nice, p, a.t);
    } else if a.Requeue? || a.WakeSleeper? || a.AddExisting? {
      PushingHome(s, p, a);
    } else if a.PickOwn? {
      PopHome(c, s.info, s.nice, p, a.level);
      RunHome(c.(queues := c.queues[a.level := c.queues[a.level][1..]]), s.info, s.nice, p, c.queues[a.level][0]);
    } else if a.RunStolen? {
      var c1 := c.(carried := WithoutAt(c.carried, a.index));
      FewerHome(c, c1, s.info, s.nice, p);
      InfoHere(c1, s.info, s.nice, p, c.carried[a.index]);
      RunHome(c1, s.info[c.carried[a.index] := p], s.nice, p, c.carried[a.index]);
    } else {
      FewerHome(c, Do(s, p, a).cpus[p], s.info, s.nice, p);
    }
  }

  lemma RunHome(c: Cpu, info: map<Thread, nat>, nice: map<Thread, nat>, p: nat, x: Thread)
    requires HomedCpu(c, info, nice, p) && x in info && info[x] == p
    ensures HomedCpu(c.(current := Some(x)), info, nice, p)
  {
  }

  // ---------- Every run ----------

  lemma StepCounted(s: State, p: nat, a: Action, t: Thread)
    requires Inv(s) && Enabled(s, p, a)
    ensures Places(Do(s, p, a), t) == if t in Do(s, p, a).live then 1 else 0
  {
    hide Do, Places, Homed, Gained;
    SteppedCount(s, p, a, t);
    LiveStep(s, p, a, t);
  }

  lemma StepHomed(s: State, p: nat, a: Action, q: nat)
    requires Inv(s) && Enabled(s, p, a) && q < |s.cpus|
    ensures Homed(Do(s, p, a), q)
  {
    hide *;
    if q == p {
      OwnHome(s, p, a);
    } else {
      OtherHome(s, p, a, q);
    }
  }

  lemma StepRest(s: State, p: nat, a: Action)
    requires Inv(s) && Enabled(s, p, a)
    ensures |Do(s, p, a).cpus| == |s.cpus| && forall t :: t in Do(s, p, a).live ==> t in Do(s, p, a).nice && Do(s, p, a).nice[t] < NICE_LEVELS
  {
    hide Places, Homed;
  }

  /** Every step keeps the invariant. */
  lemma StepInv(s: State, p: nat, a: Action)
    requires Inv(s) && Enabled(s, p, a)
    ensures Inv(Do(s, p, a))
  {
    hide Do, Places, Homed;
    var s' := Do(s, p, a);
    StepRest(s, p, a);
    forall t: Thread ensures Places(s', t) == if t in s'.live then 1 else 0 {
      StepCounted(s, p, a, t);
    }
    forall q | 0 <= q < |s'.cpus| ensures Homed(s', q) {
      StepHomed(s, p, a, q);
    }
  }

  lemma LiveStep(s: State, p: nat, a: Action, t: Thread)
    requires Inv(s) && Enabled(s, p, a)
    ensures (if t in Do(s, p, a).live then 1 else 0) == (if t in s.live then 1 else 0) + Gained(s, a, t)
  {
    if a.Reap? {
      var x := s.dead[0];
      assert InList(s.dead, x) >= 1;
      assert Places(s, x) >= 1;
    }
    hide Places;
  }

  /** A run: the state before each action, and the last. */
  ghost predicate IsRun(run: seq<State>, acts: seq<(nat, Action)>) {
    && |run| == |acts| + 1
    && forall i :: 0 <= i < |acts| ==> Enabled(run[i], acts[i].0, acts[i].1) && run[i + 1] == Do(run[i], acts[i].0, acts[i].1)
  }

  /** Nothing scheduled yet. */
  predicate Booted(s: State) {
    && s.live == {} && s.dead == []
    && (forall q :: 0 <= q < |s.waits| ==> s.waits[q] == [])
    && forall p :: 0 <= p < |s.cpus| ==> IdleCpu(s.cpus[p])
  }

  predicate IdleCpu(c: Cpu) {
    && c.current.None? && c.leaving.None? && c.carried == [] && c.sleeping == []
    && |c.queues| == NICE_LEVELS && forall l :: 0 <= l < |c.queues| ==> c.queues[l] == []
  }

  lemma {:induction false} EmptyLists(ls: seq<seq<Thread>>, t: Thread)
    requires forall l :: 0 <= l < |ls| ==> ls[l] == []
    ensures InLists(ls, t) == 0
  {
    if ls != [] {
      EmptyLists(ls[1..], t);
    }
  }

  lemma {:induction false} IdleCpus(cs: seq<Cpu>, t: Thread)
    requires forall p :: 0 <= p < |cs| ==> IdleCpu(cs[p])
    ensures OnCpus(cs, t) == 0
  {
    if cs != [] {
      assert IdleCpu(cs[0]);
      EmptyLists(cs[0].queues, t);
      IdleCpus(cs[1..], t);
    }
  }

  lemma BootedInv(s: State)
    requires Booted(s)
    ensures Inv(s)
  {
    forall t: Thread ensures Places(s, t) == 0 {
      IdleCpus(s.cpus, t);
      EmptyLists(s.waits, t);
    }
    forall p | 0 <= p < |s.cpus| ensures Homed(s, p) {
      assert IdleCpu(s.cpus[p]);
    }
    hide Places, OnCpus, InLists, Homed;
  }

  lemma {:induction false} RunInv(run: seq<State>, acts: seq<(nat, Action)>, i: nat)
    requires IsRun(run, acts) && Booted(run[0]) && i < |run|
    ensures Inv(run[i])
  {
    hide Inv, Do, Booted, Enabled;
    if i == 0 {
      BootedInv(run[0]);
    } else {
      RunInv(run, acts, i - 1);
      StepInv(run[i - 1], acts[i - 1].0, acts[i - 1].1);
    }
  }

  /**
   * In every state of every run each live thread is in exactly one place: running on one processor, on its way off it, in
   * someone's hands, in one ready, sleeping, waiting or dead list. A queued thread is queued at its nice level, on the
   * processor its CPUInfo names.
   */
  lemma OnePlace(run: seq<State>, acts: seq<(nat, Action)>, i: nat, t: Thread)
    requires IsRun(run, acts) && Booted(run[0]) && i < |run|
    ensures var s := run[i];
      && Places(s, t) == (if t in s.live then 1 else 0)
      && (forall p, q :: 0 <= p < q < |s.cpus| && Sits(s.cpus[p], t) ==> !Sits(s.cpus[q], t))
      && (forall p, l :: 0 <= p < |s.cpus| && 0 <= l < |s.cpus[p].queues| && t in s.cpus[p].queues[l] ==> t in s.nice && s.nice[t] == l && t in s.info && s.info[t] == p)
  {
    hide Places, Sits, IsRun, Booted;
    var s := run[i];
    RunInv(run, acts, i);
    forall p, q | 0 <= p < q < |s.cpus| && Sits(s.cpus[p], t) ensures !Sits(s.cpus[q], t) {
      NotElsewhere(s, p, q, t);
    }
    forall p, l | 0 <= p < |s.cpus| && 0 <= l < |s.cpus[p].queues| && t in s.cpus[p].queues[l]
      ensures t in s.nice && s.nice[t] == l && t in s.info && s.info[t] == p
    {
      assert Homed(s, p);
    }
  }

  // ---------- Where every step puts its thread ----------

  datatype Place =
    | Running(p: nat) | Leaving(p: nat) | Carried(p: nat) | Ready(p: nat, level: nat) | Sleeping(p: nat)
    | Waiting(queue: nat) | Dead | Nowhere

  function Slot(o: Option<Thread>): seq<Thread> {
    if o.Some? then [o.value] else []
  }

  /** The threads in a place, in order. */
  function At(s: State, at: Place): seq<Thread> {
    match at
    case Running(p) => if p < |s.cpus| then Slot(s.cpus[p].current) else []
    case Leaving(p) => if p < |s.cpus| then Slot(s.cpus[p].leaving) else []
    case Carried(p) => if p < |s.cpus| then s.cpus[p].carried else []
    case Ready(p, l) => if p < |s.cpus| && l < |s.cpus[p].queues| then s.cpus[p].queues[l] else []
    case Sleeping(p) => if p < |s.cpus| then s.cpus[p].sleeping else []
    case Waiting(q) => if q < |s.waits| then s.waits[q] else []
    case Dead => s.dead
    case Nowhere => []
  }

  /** The way a thread takes: from a position in one place to the end of another. */
  datatype Route = Route(from: Place, index: nat, to: Place)

  function WayOf(s: State, p: nat, a: Action): Route
    requires Enabled(s, p, a)
  {
    match a
    case Schedule(t) => Route(Nowhere, 0, Ready(p, s.nice[t]))
    case PickOwn(l) => Route(Ready(p, l), 0, Running(p))
    case StealFrom(v, l) => Route(Ready(v, l), 0, Carried(p))
    case RunStolen(i) => Route(Carried(p), i, Running(p))
    case Requeue => Route(Running(p), 0, Ready(p, LevelOf(s, s.cpus[p].current.value)))
    case WakeSleeper(i) => Route(Sleeping(p), i, Ready(p, LevelOf(s, s.cpus[p].sleeping[i])))
    case RemoveCurrent => Route(Running(p), 0, Leaving(p))
    case FallAsleep => Route(Leaving(p), 0, Sleeping(p))
    case Block(q) => Route(Leaving(p), 0, Waiting(q))
    case Exit => Route(Leaving(p), 0, Dead)
    case PopWaiter(q, i) => Route(Waiting(q), i, Carried(p))
    case AddExisting(i) => Route(Carried(p), i, Ready(p, LevelOf(s, s.cpus[p].carried[i])))
    case Reap => Route(Dead, 0, Nowhere)
  }

  /** The thread that takes it. */
  function Mover(s: State, p: nat, a: Action): Option<Thread>
    requires Enabled(s, p, a)
  {
    var w := WayOf(s, p, a);
    if a.Schedule? then Some(a.t) else if w.index < |At(s, w.from)| then Some(At(s, w.from)[w.index]) else None
  }

  /** A thread put on a queue has one of the levels there are. */
  lemma LevelThere(s: State, p: nat, a: Action)
    requires Inv(s) && Enabled(s, p, a)
    ensures var to := WayOf(s, p, a).to;
      |s.cpus[p].queues| == NICE_LEVELS && (to.Ready? ==> to.p == p && to.level < NICE_LEVELS)
  {
    hide Inv, HomedCpu, Sits;
    HomeOf(s, p);
    assert |s.cpus[p].queues| == NICE_LEVELS by {
      QueueCount(s, p);
    }
    if a.Requeue? || a.WakeSleeper? || a.AddExisting? {
      var c := s.cpus[p];
      SitsAt(s, p, a);
      SitterLives(s, p, if a.Requeue? then c.current.value else if a.WakeSleeper? then c.sleeping[a.index] else c.carried[a.index]);
    }
  }

  lemma QueueCount(s: State, p: nat)
    requires Inv(s) && p < |s.cpus|
    ensures |s.cpus[p].queues| == NICE_LEVELS
  {
    assert Homed(s, p);
  }

  lemma FromFront(l: seq<Thread>)
    requires l != []
    ensures WithoutAt(l, 0) == l[1..]
  {
    assert l[..0] + l[1..] == l[1..];
  }

  /** What one step makes of a place. */
  function After(s: State, p: nat, a: Action, at: Place): seq<Thread>
    requires Enabled(s, p, a)
  {
    var w, x := WayOf(s, p, a), Mover(s, p, a);
    if at == w.from then WithoutAt(At(s, at), w.index) else if at == w.to then At(s, at) + Slot(x) else At(s, at)
  }

  lemma QueueMoves(s: State, p: nat, a: Action, at: Place)
    requires Enabled(s, p, a) && !at.Nowhere? && (a.Schedule? || a.Requeue?) && |s.cpus[p].queues| == NICE_LEVELS && WayOf(s, p, a).to.level < NICE_LEVELS
    ensures At(Do(s, p, a), at) == After(s, p, a, at)
  {
  }

  lemma WakeMoves(s: State, p: nat, a: Action, at: Place)
    requires Enabled(s, p, a) && !at.Nowhere? && (a.WakeSleeper? || a.AddExisting?) && |s.cpus[p].queues| == NICE_LEVELS && WayOf(s, p, a).to.level < NICE_LEVELS
    ensures At(Do(s, p, a), at) == After(s, p, a, at)
  {
    hide WithoutAt;
  }

  lemma StealMoves(s: State, p: nat, a: Action, at: Place)
    requires Enabled(s, p, a) && !at.Nowhere? && a.StealFrom?
    ensures At(Do(s, p, a), at) == After(s, p, a, at)
  {
    hide WithoutAt;
    FromFront(s.cpus[a.victim].queues[a.level]);
  }

  lemma PickMoves(s: State, p: nat, a: Action, at: Place)
    requires Enabled(s, p, a) && !at.Nowhere? && a.PickOwn?
    ensures At(Do(s, p, a), at) == After(s, p, a, at)
  {
    FromFront(s.cpus[p].queues[a.level]);
    hide WithoutAt, LevelOf, Push;
  }

  lemma RunMoves(s: State, p: nat, a: Action, at: Place)
    requires Enabled(s, p, a) && !at.Nowhere? && a.RunStolen?
    ensures At(Do(s, p, a), at) == After(s, p, a, at)
  {
    hide WithoutAt;
  }

  lemma StopMoves(s: State, p: nat, a: Action, at: Place)
    requires Enabled(s, p, a) && !at.Nowhere? && (a.RemoveCurrent? || a.FallAsleep?)
    ensures At(Do(s, p, a), at) == After(s, p, a, at)
  {
  }

  lemma BlockMoves(s: State, p: nat, a: Action, at: Place)
    requires Enabled(s, p, a) && !at.Nowhere? && (a.Block? || a.PopWaiter?)
    ensures At(Do(s, p, a), at) == After(s, p, a, at)
  {
  }

  lemma DeadMoves(s: State, p: nat, a: Action, at: Place)
    requires Enabled(s, p, a) && !at.Nowhere? && (a.Exit? || a.Reap?)
    ensures At(Do(s, p, a), at) == After(s, p, a, at)
  {
    if a.Reap? {
      FromFront(s.dead);
    }
  }

  /** Every step moves its thread along its way; every other thread stays in its place, and in order. */
  lemma StepMoves(s: State, p: nat, a: Action, at: Place)
    requires Inv(s) && Enabled(s, p, a) && !at.Nowhere?
    ensures var w := WayOf(s, p, a);
      Mover(s, p, a).Some? && (if a.Schedule? then w.from.Nowhere? else w.index < |At(s, w.from)|) && w.from != w.to && At(Do(s, p, a), at) == After(s, p, a, at)
  {
    hide Inv, Do, After;
    LevelThere(s, p, a);
    match a
    case Schedule(_) => QueueMoves(s, p, a, at);
    case Requeue => QueueMoves(s, p, a, at);
    case WakeSleeper(_) => WakeMoves(s, p, a, at);
    case AddExisting(_) => WakeMoves(s, p, a, at);
    case StealFrom(_, _) => StealMoves(s, p, a, at);
    case PickOwn(_) => PickMoves(s, p, a, at);
    case RunStolen(_) => RunMoves(s, p, a, at);
    case RemoveCurrent => StopMoves(s, p, a, at);
    case FallAsleep => StopMoves(s, p, a, at);
    case Block(_) => BlockMoves(s, p, a, at);
    case PopWaiter(_, _) => BlockMoves(s, p, a, at);
    case Exit => DeadMoves(s, p, a, at);
    case Reap => DeadMoves(s, p, a, at);
  }

  /** Where the entry at an index stands once the entry at `k` is gone. */
  lemma Shifted(l: seq<Thread>, k: nat, i: nat)
    requires k < |l| && i < |l| && i != k
    ensures var j := if i < k then i else i - 1; |WithoutAt(l, k)| == |l| - 1 && j < |l| - 1 && WithoutAt(l, k)[j] == l[i]
  {
  }

  lemma BeforeAt(l: seq<Thread>, i: nat, j: nat)
    requires i < j < |l|
    ensures Ahead(l, l[i], l[j])
  {
  }

  lemma WithoutBefore(l: seq<Thread>, k: nat, t: Thread, u: Thread)
    requires k < |l| && t != l[k] && u != l[k]
    ensures t in WithoutAt(l, k) <==> t in l
    ensures Ahead(WithoutAt(l, k), t, u) <==> Ahead(l, t, u)
  {
    var r := WithoutAt(l, k);
    assert |r| == |l| - 1;
    hide WithoutAt;
    if i, j :| 0 <= i < j < |l| && l[i] == t && l[j] == u {
      Shifted(l, k, i);
      Shifted(l, k, j);
      BeforeAt(r, if i < k then i else i - 1, if j < k then j else j - 1);
    }
    if i, j :| 0 <= i < j < |r| && r[i] == t && r[j] == u {
      var i', j' := if i < k then i else i + 1, if j < k then j else j + 1;
      Shifted(l, k, i');
      Shifted(l, k, j');
      BeforeAt(l, i', j');
    }
    if i :| 0 <= i < |l| && l[i] == t {
      Shifted(l, k, i);
    }
    if i :| 0 <= i < |r| && r[i] == t {
      Shifted(l, k, if i < k then i else i + 1);
    }
  }

  lemma AppendedBefore(l: seq<Thread>, x: Thread, t: Thread, u: Thread)
    requires u != x
    ensures Ahead(l + [x], t, u) <==> Ahead(l, t, u)
  {
    var r := l + [x];
    if i, j :| 0 <= i < j < |l| && l[i] == t && l[j] == u {
      assert r[i] == t && r[j] == u;
    }
    if i, j :| 0 <= i < j < |r| && r[i] == t && r[j] == u {
      assert l[i] == t && l[j] == u;
    }
  }

  /** Every thread but the one that moves stays where it is, and in its turn. */
  lemma OthersStay(s: State, p: nat, a: Action, at: Place, t: Thread, u: Thread)
    requires Inv(s) && Enabled(s, p, a) && Mover(s, p, a) != Some(t) && Mover(s, p, a) != Some(u)
    ensures t in At(Do(s, p, a), at) <==> t in At(s, at)
    ensures Ahead(At(Do(s, p, a), at), t, u) <==> Ahead(At(s, at), t, u)
  {
    hide Inv, Do, Enabled, WayOf, WithoutAt, Ahead;
    if !at.Nowhere? {
      StepMoves(s, p, a, at);
      var w, x := WayOf(s, p, a), Mover(s, p, a).value;
      if at == w.from {
        WithoutBefore(At(s, at), w.index, t, u);
      } else if at == w.to {
        AppendedBefore(At(s, at), x, t, u);
      }
    }
  }

  /** A thread comes into a place only along a way that ends there, and leaves it only along one that starts there. */
  lemma ComesAndGoes(s: State, p: nat, a: Action, at: Place, t: Thread)
    requires Inv(s) && Enabled(s, p, a)
    ensures t in At(Do(s, p, a), at) && t !in At(s, at) ==> Mover(s, p, a) == Some(t) && WayOf(s, p, a).to == at
    ensures t in At(s, at) && t !in At(Do(s, p, a), at) ==> Mover(s, p, a) == Some(t) && WayOf(s, p, a).from == at
  {
    hide Inv, Do, Enabled, WayOf;
    if !at.Nowhere? {
      StepMoves(s, p, a, at);
      if Mover(s, p, a) != Some(t) {
        OthersStay(s, p, a, at, t, t);
      }
    }
  }

  /**
   * A thread found in a place in any run came there by a step whose way ends there, and has been there since.
   */
  lemma {:induction false} CameBy(run: seq<State>, acts: seq<(nat, Action)>, i: nat, at: Place, t: Thread) returns (m: nat)
    requires IsRun(run, acts) && Booted(run[0]) && i < |run| && t in At(run[i], at)
    ensures m < i && Enabled(run[m], acts[m].0, acts[m].1) && Mover(run[m], acts[m].0, acts[m].1) == Some(t) && WayOf(run[m], acts[m].0, acts[m].1).to == at
    ensures forall k :: m < k <= i ==> t in At(run[k], at)
  {
    hide Do, Enabled, Booted, At, WayOf, Mover, Inv;
    if i == 0 {
      NoneBooted(run[0], at);
      assert false;
    } else {
      var s, p, a := run[i - 1], acts[i - 1].0, acts[i - 1].1;
      RunStep(run, acts, i - 1);
      RunInv(run, acts, i - 1);
      ComesAndGoes(s, p, a, at, t);
      if t in At(s, at) {
        m := CameBy(run, acts, i - 1, at, t);
      } else {
        m := i - 1;
      }
    }
  }

  lemma RunStep(run: seq<State>, acts: seq<(nat, Action)>, i: nat)
    requires IsRun(run, acts) && i < |acts|
    ensures |run| == |acts| + 1 && Enabled(run[i], acts[i].0, acts[i].1) && run[i + 1] == Do(run[i], acts[i].0, acts[i].1)
  {
  }

  lemma NoneBooted(s: State, at: Place)
    requires Booted(s)
    ensures At(s, at) == []
  {
    if (at.Running? || at.Leaving? || at.Carried? || at.Ready? || at.Sleeping?) && at.p < |s.cpus| {
      assert IdleCpu(s.cpus[at.p]);
    }
  }

  /** A thread in a wait queue blocked there, from the processor it was leaving, and has been there since. */
  lemma WaiterBlocked(run: seq<State>, acts: seq<(nat, Action)>, i: nat, q: nat, t: Thread) returns (m: nat)
    requires IsRun(run, acts) && Booted(run[0]) && i < |run| && q < |run[i].waits| && t in run[i].waits[q]
    ensures m < i && acts[m].1 == Block(q) && acts[m].0 < |run[m].cpus| && run[m].cpus[acts[m].0].leaving == Some(t)
    ensures forall k :: m < k <= i ==> q < |run[k].waits| && t in run[k].waits[q]
  {
    hide Do, Booted;
    m := CameBy(run, acts, i, Waiting(q), t);
    forall k | m < k <= i ensures q < |run[k].waits| && t in run[k].waits[q] {
      assert t in At(run[k], Waiting(q));
    }
  }

  /** It leaves the queue only when a waker pops it, into whose hands it goes. */
  lemma WaiterPopped(run: seq<State>, acts: seq<(nat, Action)>, i: nat, q: nat, t: Thread)
    requires IsRun(run, acts) && Booted(run[0]) && i < |acts| && t in At(run[i], Waiting(q)) && t !in At(run[i + 1], Waiting(q))
    ensures var (p, a) := acts[i];
      && a.PopWaiter? && a.queue == q && q < |run[i].waits| && a.index < |run[i].waits[q]| && run[i].waits[q][a.index] == t
      && At(run[i + 1], Carried(p)) == At(run[i], Carried(p)) + [t]
  {
    hide Do, Booted, Inv;
    var s, p, a := run[i], acts[i].0, acts[i].1;
    assert Enabled(s, p, a) && run[i + 1] == Do(s, p, a);
    RunInv(run, acts, i);
    ComesAndGoes(s, p, a, Waiting(q), t);
    StepMoves(s, p, a, Carried(p));
  }
}
