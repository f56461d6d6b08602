/** PickNext and StealThreadFromOther of kernel/src/Scheduling/Scheduler.cpp: which level runs next. */
module PickNext {

  // The run counts of the levels are the digits of a counter in base 3; the last level is the lowest digit.

  import opened Basics

  const MAX_RUN_COUNT: nat := 2

  /** The run counts of one processor, and the number of threads queued at each level. */
  type Counts = seq<nat>

  predicate Digits(r: Counts) {
    |r| == NICE_LEVELS && forall i :: 0 <= i < |r| ==> r[i] <= MAX_RUN_COUNT
  }

  /** The first level with a thread. */
  predicate IsFirst(q: Counts, i: nat) {
    i < |q| && q[i] > 0 && forall j :: 0 <= j < i ==> q[j] == 0
  }

  /** A level PickNext would take: it has a thread, and has not used up its runs unless it is the first. */
  predicate Eligible(q: Counts, r: Counts, i: nat)
    requires |q| == |r|
  {
    i < |q| && q[i] > 0 && (r[i] < MAX_RUN_COUNT || IsFirst(q, i))
  }

  /** The level PickNext takes: the last one it would take. */
  predicate IsPick(q: Counts, r: Counts, c: nat)
    requires |q| == |r|
  {
    Eligible(q, r, c) && forall i :: c < i < |q| ==> !Eligible(q, r, i)
  }

  /** The counts after a pick: the first level with threads starts over if its runs are used up, the picked level has run
      once more, and the levels after it start over if theirs are. */
  predicate IsAfter(q: Counts, r: Counts, c: nat, r': Counts)
    requires |q| == |r|
  {
    && |r'| == |r| && c < |r|
    && forall i :: 0 <= i < |r| ==>
      var base := if IsFirst(q, i) && r[i] >= MAX_RUN_COUNT then 0 else r[i];
      r'[i] == if i < c then base else if i == c then base + 1 else if base >= MAX_RUN_COUNT then 0 else base
  }

  // ---------- The choice ----------

  /** The loop both functions share: goes through the levels and remembers the last one it may take. */
  method SelectLevel(q: Counts, r: Counts) returns (nice: Option<nat>, r': Counts)
    requires |q| == |r|
    ensures nice.None? <==> forall i :: 0 <= i < |q| ==> q[i] == 0
    ensures nice.None? ==> r' == r
    ensures nice.Some? ==> IsPick(q, r, nice.value)
    ensures |r'| == |r| && forall i :: 0 <= i < |r| ==> r'[i] == if IsFirst(q, i) && r[i] >= MAX_RUN_COUNT then 0 else r[i]
  {
    nice, r' := None, r;
    for i := 0 to |q|
      invariant nice.None? <==> forall j :: 0 <= j < i ==> q[j] == 0
      invariant nice.Some? ==> nice.value < i && Eligible(q, r, nice.value) && forall j :: nice.value < j < i ==> !Eligible(q, r, j)
      invariant |r'| == |r| && forall j :: 0 <= j < |r| ==> r'[j] == if j < i && IsFirst(q, j) && r[j] >= MAX_RUN_COUNT then 0 else r[j]
    {
      if q[i] == 0 || (r'[i] >= MAX_RUN_COUNT && i != 0 && nice.Some?) {
        continue;
      }
      if nice.None? && r'[i] >= MAX_RUN_COUNT {
        r' := r'[i := 0];
      }
      nice := Some(i);
    }
  }

  /** The rest of PickNext: the picked level has run once more, and later levels start over. */
  method Count(r: Counts, c: nat) returns (r': Counts)
    requires c < |r|
    ensures |r'| == |r| && forall i :: 0 <= i < |r| ==>
      r'[i] == if i < c then r[i] else if i == c then r[i] + 1 else if r[i] >= MAX_RUN_COUNT then 0 else r[i]
  {
    r' := Restart(r[c := r[c] + 1], c + 1);
  }

  /** The levels from `c` on start over if their runs are used up. */
  method Restart(r: Counts, c: nat) returns (r': Counts)
    requires c <= |r|
    ensures |r'| == |r| && forall i :: 0 <= i < |r| ==> r'[i] == if i >= c && r[i] >= MAX_RUN_COUNT then 0 else r[i]
  {
    r' := r;
    for i := c to |r|
      invariant |r'| == |r| && forall j :: 0 <= j < |r| ==> r'[j] == if c <= j < i && r[j] >= MAX_RUN_COUNT then 0 else r[j]
    {
      if r'[i] >= MAX_RUN_COUNT {
        r' := r'[i := 0];
      }
    }
  }

  /** What PickNext runs: a thread of the processor's own queues, one of another's, or the idle thread. */
  datatype Pick = Own(level: nat) | Stolen(victim: nat, level: nat) | Idle

  predicate AllEmpty(q: Counts) {
    forall i :: 0 <= i < |q| ==> q[i] == 0
  }

  /** The processor's queues and those of the others, in the order they are asked. */
  predicate Sized(q: Counts, others: seq<Counts>) {
    |q| == NICE_LEVELS && forall v :: 0 <= v < |others| ==> |others[v]| == NICE_LEVELS
  }

  /** One call: it steals only if it has nothing itself, from the first processor that has something, and idles only if nobody has. */
  ghost predicate Picks(q: Counts, others: seq<Counts>, r: Counts, pick: Pick, r': Counts) {
    && |r| == |r'| == NICE_LEVELS && Sized(q, others)
    && match pick
       case Own(c) => IsPick(q, r, c) && IsAfter(q, r, c, r')
       case Stolen(v, c) =>
         && AllEmpty(q) && v < |others| && (forall w :: 0 <= w < v ==> AllEmpty(others[w]))
         && IsPick(others[v], r, c) && IsAfter(others[v], r, c, r')
       case Idle =>
         && AllEmpty(q) && (forall v :: 0 <= v < |others| ==> AllEmpty(others[v]))
         && forall i :: 0 <= i < |r| ==> r'[i] == if r[i] >= MAX_RUN_COUNT then 0 else r[i]
  }

  /** StealThreadFromOther: asks the other processors in turn, with the run counts of this one. */
  method Steal(others: seq<Counts>, r: Counts) returns (v: nat, nice: Option<nat>, r': Counts)
    requires |r| == NICE_LEVELS && forall w :: 0 <= w < |others| ==> |others[w]| == NICE_LEVELS
    ensures nice.None? ==> r' == r && forall w :: 0 <= w < |others| ==> AllEmpty(others[w])
    ensures nice.Some? ==> v < |others| && (forall w :: 0 <= w < v ==> AllEmpty(others[w])) && IsPick(others[v], r, nice.value)
    ensures nice.Some? ==> |r'| == |r| && forall i :: 0 <= i < |r| ==> r'[i] == if IsFirst(others[v], i) && r[i] >= MAX_RUN_COUNT then 0 else r[i]
  {
    v, nice, r' := 0, None, r;
    while v < |others| && nice == None
      invariant v <= |others| && (nice.None? ==> r' == r) && forall w :: 0 <= w < v ==> AllEmpty(others[w])
      invariant nice.Some? ==> v < |others| && IsPick(others[v], r, nice.value) && |r'| == |r|
      invariant nice.Some? ==> forall i :: 0 <= i < |r| ==> r'[i] == if IsFirst(others[v], i) && r[i] >= MAX_RUN_COUNT then 0 else r[i]
      decreases |others| - v, nice.None?
    {
      nice, r' := SelectLevel(others[v], r);
      if nice == None {
        v := v + 1;
      }
    }
  }

  /** PickNext, up to the pop: the level it takes a thread from and the run counts it leaves. */
  method PickNext(q: Counts, others: seq<Counts>, r: Counts) returns (pick: Pick, r': Counts)
    requires |r| == NICE_LEVELS && Sized(q, others)
    ensures Picks(q, others, r, pick, r')
  {
    var nice, r1 := SelectLevel(q, r);
    if nice.Some? {
      r' := Count(r1, nice.value);
      return Own(nice.value), r';
    }
    var v, stolen, r2 := Steal(others, r1);
    if stolen.Some? {
      r' := Count(r2, stolen.value);
      return Stolen(v, stolen.value), r';
    }
    r' := Restart(r2, 0);
    return Idle, r';
  }

  lemma PickUnique(q: Counts, r: Counts, c: nat, d: nat)
    requires |q| == |r| && IsPick(q, r, c) && IsPick(q, r, d)
    ensures c == d
  {
  }

  lemma PickBounded(q: Counts, r: Counts, c: nat, r': Counts)
    requires Digits(r) && |q| == |r| && IsPick(q, r, c) && IsAfter(q, r, c, r')
    ensures Digits(r')
  {
  }

  /** The run counts never exceed the maximum. */
  lemma CountsBounded(q: Counts, others: seq<Counts>, r: Counts, pick: Pick, r': Counts)
    requires Digits(r) && Picks(q, others, r, pick, r')
    ensures Digits(r')
  {
    hide IsPick, IsAfter;
    match pick
    case Own(c) => PickBounded(q, r, c, r');
    case Stolen(v, c) => PickBounded(others[v], r, c, r');
    case Idle =>
  }

  // ---------- The counter ----------

  function Pow3(n: nat): (p: nat)
    ensures p > 0
  {
    if n == 0 then 1 else 3 * Pow3(n - 1)
  }

  /** The counts of the levels from `i` on, read in base 3. */
  function Value(r: Counts, i: nat): nat
    requires |r| == NICE_LEVELS && i <= NICE_LEVELS
    decreases NICE_LEVELS - i
  {
    if i == NICE_LEVELS then 0 else r[i] * Pow3(NICE_LEVELS - 1 - i) + Value(r, i + 1)
  }

  lemma DigitTimes(d: nat, p: nat)
    requires d <= 2
    ensures d * p <= 2 * p && (d + 1) * p == d * p + p
  {
    assert d == 0 || d == 1 || d == 2;
  }

  lemma {:induction false} ValueBound(r: Counts, i: nat)
    requires Digits(r) && i <= NICE_LEVELS
    ensures Value(r, i) < Pow3(NICE_LEVELS - i)
    decreases NICE_LEVELS - i
  {
    if i < NICE_LEVELS {
      ValueBound(r, i + 1);
      DigitTimes(r[i], Pow3(NICE_LEVELS - 1 - i));
    }
  }

  /** The counts up to `c` are as before, `c` has one more: the number has grown. */
  lemma {:induction false} ValueGrows(r: Counts, r': Counts, i: nat, c: nat)
    requires Digits(r) && |r'| == NICE_LEVELS && i <= c < NICE_LEVELS && r'[c] == r[c] + 1
    requires forall j :: i <= j < c ==> r'[j] == r[j]
    ensures Value(r', i) > Value(r, i)
    decreases c - i
  {
    if i < c {
      ValueGrows(r, r', i + 1, c);
    } else {
      ValueBound(r, c + 1);
      DigitTimes(r[c], Pow3(NICE_LEVELS - 1 - c));
    }
  }

  /** An upper bound on the calls until level `m` is picked. */
  function Wait(r: Counts, m: nat): int
    requires |r| == NICE_LEVELS && m < NICE_LEVELS
  {
    var all := Pow3(NICE_LEVELS - 1 - m);
    (if r[m] >= MAX_RUN_COUNT then all else 0) + all - Value(r, m + 1)
  }

  lemma WaitBound(r: Counts, m: nat)
    requires Digits(r) && m < NICE_LEVELS
    ensures 1 <= Wait(r, m) <= 2 * Pow3(NICE_LEVELS - 1 - m)
  {
    ValueBound(r, m + 1);
  }

  /** While level `m` has a thread, every pick of another level brings its turn closer. */
  lemma WaitShrinks(q: Counts, r: Counts, c: nat, r': Counts, m: nat)
    requires Digits(r) && |q| == NICE_LEVELS && IsPick(q, r, c) && IsAfter(q, r, c, r') && m < NICE_LEVELS && q[m] > 0 && c != m
    ensures Wait(r', m) < Wait(r, m)
  {
    PickBounded(q, r, c, r');
    ValueBound(r, m + 1);
    if m < c {
      assert !IsFirst(q, c) && forall j :: m < j < c ==> !IsFirst(q, j);
      ValueGrows(r, r', m + 1, c);
    } else {
      assert !Eligible(q, r, m);
      assert r[m] >= MAX_RUN_COUNT && r'[m] == 0;
    }
  }

  // ---------- Runs ----------

  /** The queue lengths a call finds. */
  datatype Queues = Queues(own: Counts, others: seq<Counts>)

  /** A run from the start, where no level has run: what each call finds, what it picks, and the counts before and after it. */
  ghost predicate IsRun(qs: seq<Queues>, picks: seq<Pick>, rs: seq<Counts>) {
    && |qs| == |picks| && |rs| == |qs| + 1 && |rs[0]| == NICE_LEVELS && AllEmpty(rs[0])
    && forall t :: 0 <= t < |qs| ==> Picks(qs[t].own, qs[t].others, rs[t], picks[t], rs[t + 1])
  }

  lemma {:induction false} RunDigits(qs: seq<Queues>, picks: seq<Pick>, rs: seq<Counts>, t: nat)
    requires IsRun(qs, picks, rs) && t <= |qs|
    ensures Digits(rs[t])
    decreases t
  {
    hide Picks;
    if t > 0 {
      RunDigits(qs, picks, rs, t - 1);
      CountsBounded(qs[t - 1].own, qs[t - 1].others, rs[t - 1], picks[t - 1], rs[t]);
    }
  }

  /** A processor with a thread of its own picks one of them. */
  lemma PicksOwn(q: Counts, others: seq<Counts>, r: Counts, pick: Pick, r': Counts, m: nat)
    requires Picks(q, others, r, pick, r') && m < NICE_LEVELS && q[m] > 0
    ensures pick.Own? && IsPick(q, r, pick.level) && IsAfter(q, r, pick.level, r')
  {
  }

  /** As long as `m` has threads and is not picked, the bound falls with every call. */
  lemma {:induction false} WaitFalls(qs: seq<Queues>, picks: seq<Pick>, rs: seq<Counts>, m: nat, s: nat, t: nat)
    requires IsRun(qs, picks, rs) && m < NICE_LEVELS && s <= t <= |qs|
    requires forall i :: s <= i < t ==> |qs[i].own| == NICE_LEVELS && qs[i].own[m] > 0 && picks[i] != Own(m)
    ensures Digits(rs[s]) && Digits(rs[t]) && Wait(rs[t], m) <= Wait(rs[s], m) - (t - s)
    decreases t
  {
    hide Picks, Wait;
    RunDigits(qs, picks, rs, s);
    RunDigits(qs, picks, rs, t);
    if s < t {
      WaitFalls(qs, picks, rs, m, s, t - 1);
      PicksOwn(qs[t - 1].own, qs[t - 1].others, rs[t - 1], picks[t - 1], rs[t], m);
      WaitShrinks(qs[t - 1].own, rs[t - 1], picks[t - 1].level, rs[t], m);
    }
  }

  /**
   * Bounded waiting: from any time on, a level that stays non-empty is picked within 2 * 3^(15 - m) calls, whatever
   * arrives at other levels and whatever happened before.
   */
  lemma BoundedWaiting(qs: seq<Queues>, picks: seq<Pick>, rs: seq<Counts>, m: nat, s: nat)
    requires IsRun(qs, picks, rs) && m < NICE_LEVELS && s + 2 * Pow3(NICE_LEVELS - 1 - m) <= |qs|
    requires forall t :: s <= t < s + 2 * Pow3(NICE_LEVELS - 1 - m) ==> |qs[t].own| == NICE_LEVELS && qs[t].own[m] > 0
    ensures exists t :: s <= t < s + 2 * Pow3(NICE_LEVELS - 1 - m) && picks[t] == Own(m)
  {
    hide Picks, Wait;
    var bound := 2 * Pow3(NICE_LEVELS - 1 - m);
    if forall t :: s <= t < s + bound ==> picks[t] != Own(m) {
      WaitFalls(qs, picks, rs, m, s, s + bound);
      WaitBound(rs[s], m);
      WaitBound(rs[s + bound], m);
    }
  }

  // ---------- Exact turns ----------

  /** Every level has a thread. */
  predicate AllBusy(q: Counts) {
    |q| == NICE_LEVELS && forall i :: 0 <= i < |q| ==> q[i] > 0
  }

  /** One pick adds 1 to the counter: the levels after the picked one were at their highest and start over. */
  lemma {:induction false} CountsUp(q: Counts, r: Counts, c: nat, r': Counts, i: nat)
    requires Digits(r) && AllBusy(q) && IsPick(q, r, c) && IsAfter(q, r, c, r') && 1 <= i <= NICE_LEVELS
    ensures c < i ==> Value(r, i) == Pow3(NICE_LEVELS - i) - 1 && Value(r', i) == 0
    ensures i <= c ==> Value(r', i) == Value(r, i) + 1
    decreases NICE_LEVELS - i
  {
    if i < NICE_LEVELS {
      assert !IsFirst(q, i) by {
        assert q[0] > 0;
      }
      assert c < i ==> !Eligible(q, r, i);
      CountsUp(q, r, c, r', i + 1);
      DigitTimes(r[i], Pow3(NICE_LEVELS - 1 - i));
    }
  }

  lemma NextMod(t: nat, p: nat)
    requires p > 0
    ensures (t + 1) % p == if t % p + 1 == p then 0 else t % p + 1
  {
    var d, k := t / p, t % p;
    assert t == d * p + k;
    if k + 1 == p {
      assert t + 1 == (d + 1) * p;
      ModOf(d + 1, 0, p);
    } else {
      assert t + 1 == d * p + (k + 1);
      ModOf(d, k + 1, p);
    }
  }

  lemma ModOf(d: nat, k: nat, p: nat)
    requires k < p
    ensures (d * p + k) % p == k
  {
    var x := d * p + k;
    var e, m := x / p, x % p;
    assert x == e * p + m;
    SmallMultiple(d - e, p, m - k);
  }

  lemma SmallMultiple(a: int, p: int, e: int)
    requires a * p == e && 0 - p < e < p
    ensures e == 0
  {
    Multiple(a, p);
  }

  lemma Multiple(a: int, p: int)
    requires p > 0
    ensures (a >= 1 ==> a * p >= p) && (a <= -1 ==> a * p <= 0 - p)
  {
  }

  lemma SmallMod(x: nat, p: nat)
    requires 0 < x <= p
    ensures x % p == 0 <==> x == p
  {
    if x == p {
      ModOf(1, 0, p);
    } else {
      ModOf(0, x, p);
    }
  }

  /** After `t` calls the counter stands at `t`. */
  lemma {:induction false} CounterRun(qs: seq<Queues>, picks: seq<Pick>, rs: seq<Counts>, t: nat, i: nat)
    requires IsRun(qs, picks, rs) && t <= |qs| && 1 <= i <= NICE_LEVELS && forall s :: 0 <= s < t ==> AllBusy(qs[s].own)
    ensures Digits(rs[t]) && Value(rs[t], i) == t % Pow3(NICE_LEVELS - i)
    decreases t
  {
    hide Picks, IsPick, IsAfter;
    RunDigits(qs, picks, rs, t);
    if t == 0 {
      ZeroValue(rs[0], i);
    } else {
      CounterRun(qs, picks, rs, t - 1, i);
      var q, c := qs[t - 1].own, picks[t - 1];
      assert AllBusy(q) && q[0] > 0;
      PicksOwn(q, qs[t - 1].others, rs[t - 1], c, rs[t], 0);
      CountsUp(q, rs[t - 1], c.level, rs[t], i);
      ValueBound(rs[t], i);
      NextMod(t - 1, Pow3(NICE_LEVELS - i));
    }
  }

  lemma {:induction false} ZeroValue(r: Counts, i: nat)
    requires |r| == NICE_LEVELS && AllEmpty(r) && i <= NICE_LEVELS
    ensures Value(r, i) == 0
    decreases NICE_LEVELS - i
  {
    if i < NICE_LEVELS {
      ZeroValue(r, i + 1);
    }
  }

  /**
   * With threads at every level from the start, call number n takes level `m` exactly if 3^(15 - m) is the highest power of
   * 3 that divides n, up to 3^15: a level runs MAX_RUN_COUNT times for every run of the level before it.
   */
  lemma Turns(qs: seq<Queues>, picks: seq<Pick>, rs: seq<Counts>, t: nat, m: nat)
    requires IsRun(qs, picks, rs) && t < |qs| && m < NICE_LEVELS && forall s :: 0 <= s <= t ==> AllBusy(qs[s].own)
    ensures picks[t] == Own(m) <==> (t + 1) % Pow3(NICE_LEVELS - 1 - m) == 0 && (m == 0 || (t + 1) % Pow3(NICE_LEVELS - m) != 0)
  {
    hide Picks, IsPick, IsAfter, Value, Pow3;
    var q := qs[t].own;
    assert q[0] > 0;
    PicksOwn(q, qs[t].others, rs[t], picks[t], rs[t + 1], 0);
    var c := picks[t].level;
    AtHighest(qs, picks, rs, t, m + 1);
    if m > 0 {
      AtHighest(qs, picks, rs, t, m);
    }
  }

  /** The picked level is before `i` exactly if the number of the call is a multiple of 3^(16 - i). */
  lemma AtHighest(qs: seq<Queues>, picks: seq<Pick>, rs: seq<Counts>, t: nat, i: nat)
    requires IsRun(qs, picks, rs) && t < |qs| && 1 <= i <= NICE_LEVELS && forall s :: 0 <= s <= t ==> AllBusy(qs[s].own)
    ensures picks[t].Own? && (picks[t].level < i <==> (t + 1) % Pow3(NICE_LEVELS - i) == 0)
  {
    hide Picks, IsPick, IsAfter;
    var q := qs[t].own;
    assert AllBusy(q) && q[0] > 0;
    PicksOwn(q, qs[t].others, rs[t], picks[t], rs[t + 1], 0);
    CounterRun(qs, picks, rs, t, i);
    CountsUp(q, rs[t], picks[t].level, rs[t + 1], i);
    RunDigits(qs, picks, rs, t + 1);
    ValueBound(rs[t + 1], i);
    NextMod(t, Pow3(NICE_LEVELS - i));
  }

  /** Level `m` has its first turn in call number 3^(15 - m), and not before. */
  lemma FirstTurn(qs: seq<Queues>, picks: seq<Pick>, rs: seq<Counts>, t: nat, m: nat)
    requires IsRun(qs, picks, rs) && t < |qs| && m < NICE_LEVELS && t < Pow3(NICE_LEVELS - 1 - m) && forall s :: 0 <= s <= t ==> AllBusy(qs[s].own)
    ensures picks[t] == Own(m) <==> t + 1 == Pow3(NICE_LEVELS - 1 - m)
  {
    Turns(qs, picks, rs, t, m);
    var p := Pow3(NICE_LEVELS - 1 - m);
    SmallMod(t + 1, p);
    assert Pow3(NICE_LEVELS - m) == 3 * p;
    hide *;
    SmallMod(t + 1, 3 * p);
  }
}
