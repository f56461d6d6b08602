/** kernel/src/Scheduling/ThreadList.cpp: threads linked through fields of their own, one scheduler list each. */
module ThreadLists {

  import opened Basics

  type Thread = nat

  /** The fields of a thread that a scheduler list uses. */
  datatype Links = Links(previous: Option<Thread>, next: Option<Thread>)

  type Memory = map<Thread, Links>

  datatype List = List(head: Option<Thread>, tail: Option<Thread>, count: nat)

  const UNLINKED := Links(None, None)

  function PreviousIn(xs: seq<Thread>, i: nat): Option<Thread> {
    if 0 < i <= |xs| then Some(xs[i - 1]) else None
  }

  function NextIn(xs: seq<Thread>, i: nat): Option<Thread> {
    if i + 1 < |xs| then Some(xs[i + 1]) else None
  }

  /** The links spell `xs`, in both directions. */
  ghost predicate Linked(m: Memory, l: List, xs: seq<Thread>) {
    && l.count == |xs| && Distinct(xs)
    && l.head == (if xs == [] then None else Some(xs[0])) && l.tail == PreviousIn(xs, |xs|)
    && forall i :: 0 <= i < |xs| ==> xs[i] in m && m[xs[i]] == Links(PreviousIn(xs, i), NextIn(xs, i))
  }

  /** Only `t` and threads of `xs` have changed. */
  ghost predicate Kept(m: Memory, m': Memory, xs: seq<Thread>, t: Thread) {
    m'.Keys == m.Keys && forall x :: x in m && x != t && x !in xs ==> m'[x] == m[x]
  }

  /** A list none of whose threads were touched is as it was. */
  lemma OtherLinked(m: Memory, m': Memory, xs: seq<Thread>, t: Thread, l: List, ys: seq<Thread>)
    requires Kept(m, m', xs, t) && Linked(m, l, ys) && t !in ys && forall x :: x in xs ==> x !in ys
    ensures Linked(m', l, ys)
  {
    forall i | 0 <= i < |ys| ensures ys[i] in m' && m'[ys[i]] == m[ys[i]] {
      assert ys[i] in ys;
    }
  }

  // ---------- The checks ----------

  /** What pushBack asserts of the thread. */
  predicate PushAllowed(m: Memory, l: List, t: Thread) {
    t in m && !(m[t].previous.Some? || m[t].next.Some? || l.head == Some(t) || l.tail == Some(t))
  }

  /** What remove asserts of the thread. */
  predicate RemoveAllowed(m: Memory, l: List, t: Thread) {
    && t in m && var d := m[t];
    && (d.previous.Some? || l.head == Some(t)) && (d.next.Some? || l.tail == Some(t))
    && (d.previous.Some? ==> d.previous.value in m && m[d.previous.value].next == Some(t))
    && (d.next.Some? ==> d.next.value in m && m[d.next.value].previous == Some(t))
  }

  /** A thread of the list passes the check of remove and fails that of pushBack. */
  lemma OwnThread(m: Memory, l: List, xs: seq<Thread>, t: Thread)
    requires Linked(m, l, xs) && t in xs
    ensures RemoveAllowed(m, l, t) && !PushAllowed(m, l, t)
  {
    var i :| 0 <= i < |xs| && xs[i] == t;
    assert i > 0 ==> m[xs[i - 1]].next == NextIn(xs, i - 1);
    assert i + 1 < |xs| ==> m[xs[i + 1]].previous == PreviousIn(xs, i + 1);
  }

  /** A thread of another list passes the check of pushBack exactly when it is alone there, and that of remove exactly when it is neither first nor last. */
  lemma OtherThread(m: Memory, l: List, xs: seq<Thread>, other: List, ys: seq<Thread>, i: nat)
    requires Linked(m, l, xs) && Linked(m, other, ys) && i < |ys| && ys[i] !in xs
    ensures PushAllowed(m, l, ys[i]) <==> |ys| == 1
    ensures RemoveAllowed(m, l, ys[i]) <==> 0 < i < |ys| - 1
  {
    assert i > 0 ==> m[ys[i - 1]].next == NextIn(ys, i - 1);
    assert i + 1 < |ys| ==> m[ys[i + 1]].previous == PreviousIn(ys, i + 1);
  }

  // ---------- The operations ----------

  /** The neighbours when `t` is appended. */
  lemma AppendedLinks(xs: seq<Thread>, t: Thread, i: nat)
    requires i < |xs|
    ensures var ys := xs + [t];
      ys[i] == xs[i] && PreviousIn(ys, i) == PreviousIn(xs, i) && NextIn(ys, i) == if i + 1 == |xs| then Some(t) else NextIn(xs, i)
  {
  }

  lemma AppendedEnds(xs: seq<Thread>, t: Thread)
    requires Distinct(xs) && t !in xs
    ensures var ys := xs + [t];
      && |ys| == |xs| + 1 && ys[|xs|] == t && Distinct(ys)
      && PreviousIn(ys, |ys|) == Some(t) && PreviousIn(ys, |xs|) == PreviousIn(xs, |xs|) && NextIn(ys, |xs|) == None
      && (if ys == [] then None else Some(ys[0])) == (if xs == [] then Some(t) else Some(xs[0]))
      && PreviousIn(xs, |xs|) == if xs == [] then None else Some(xs[|xs| - 1])
  {
  }

  method LinkLast(m: Memory, l: List, t: Thread, ghost xs: seq<Thread>) returns (m': Memory, l': List)
    requires Linked(m, l, xs) && PushAllowed(m, l, t)
    ensures Linked(m', l', xs + [t]) && Kept(m, m', xs, t) && t !in xs && t in m
  {
    hide PreviousIn, NextIn, Distinct;
    ghost var ys := xs + [t];
    if t in xs {
      OwnThread(m, l, xs, t);
    }
    AppendedEnds(xs, t);
    if l.head == None {
      m', l' := m[t := UNLINKED], List(Some(t), Some(t), l.count + 1);
    } else {
      var last := l.tail.value;
      m' := m[last := m[last].(next := Some(t))];
      m' := m'[t := Links(l.tail, None)];
      l' := List(l.head, Some(t), l.count + 1);
    }
    forall i | 0 <= i < |xs| ensures ys[i] in m' && m'[ys[i]] == Links(PreviousIn(ys, i), NextIn(ys, i)) {
      AppendedLinks(xs, t, i);
      LastOnce(xs, i);
    }
  }

  lemma LastOnce(xs: seq<Thread>, i: nat)
    requires i < |xs| && Distinct(xs)
    ensures xs[i] == xs[|xs| - 1] <==> i + 1 == |xs|
  {
  }

  /** The neighbours when the first thread is gone. */
  lemma RestLinks(xs: seq<Thread>, i: nat)
    requires i < |xs| - 1 && Distinct(xs)
    ensures var ys := xs[1..];
      && ys[i] == xs[i + 1] && xs[i + 1] != xs[0] && (NextIn(xs, 0) == Some(xs[i + 1]) <==> i == 0)
      && PreviousIn(ys, i) == (if i == 0 then None else PreviousIn(xs, i + 1)) && NextIn(ys, i) == NextIn(xs, i + 1)
  {
  }

  lemma RestEnds(xs: seq<Thread>)
    requires xs != [] && Distinct(xs)
    ensures var ys := xs[1..];
      && |ys| == |xs| - 1 && Distinct(ys) && NextIn(xs, 0) == (if ys == [] then None else Some(ys[0])) && (|xs| > 1 ==> NextIn(xs, 0) == Some(xs[1]))
      && PreviousIn(ys, |ys|) == if ys == [] then None else PreviousIn(xs, |xs|)
  {
  }

  method UnlinkFirst(m: Memory, l: List, ghost xs: seq<Thread>) returns (m': Memory, l': List, t: Option<Thread>)
    requires Linked(m, l, xs)
    ensures xs == [] ==> m' == m && l' == l && t == None
    ensures xs != [] ==> t == Some(xs[0]) && Linked(m', l', xs[1..]) && Kept(m, m', xs, xs[0]) && xs[0] in m' && m'[xs[0]] == UNLINKED
  {
    hide PreviousIn, NextIn, Distinct;
    if l.head == None {
      return m, l, None;
    }
    RestEnds(xs);
    t := l.head;
    var after := m[t.value].next;
    m' := m;
    if after != None {
      m' := m'[after.value := m'[after.value].(previous := None)];
    }
    l' := List(after, if after != None then l.tail else None, l.count - 1);
    m' := m'[t.value := UNLINKED];
    ghost var ys := xs[1..];
    forall i | 0 <= i < |ys| ensures ys[i] in m' && m'[ys[i]] == Links(PreviousIn(ys, i), NextIn(ys, i)) {
      RestLinks(xs, i);
    }
  }

  lemma WithoutElements(xs: seq<Thread>, k: nat)
    requires k < |xs|
    ensures |WithoutAt(xs, k)| == |xs| - 1 && forall i :: 0 <= i < |xs| - 1 ==> WithoutAt(xs, k)[i] == xs[if i < k then i else i + 1]
  {
  }

  /** The neighbours of the threads that are left when the thread at `k` is unlinked. */
  lemma WithoutLinks(xs: seq<Thread>, k: nat, i: nat)
    requires k < |xs| && i < |xs| - 1 && Distinct(xs)
    ensures var ys, j := WithoutAt(xs, k), if i < k then i else i + 1;
      && |ys| == |xs| - 1 && ys[i] == xs[j] && xs[j] != xs[k]
      && PreviousIn(ys, i) == (if j == k + 1 then PreviousIn(xs, k) else PreviousIn(xs, j))
      && NextIn(ys, i) == (if j + 1 == k then NextIn(xs, k) else NextIn(xs, j))
      && (PreviousIn(xs, k) == Some(xs[j]) <==> j + 1 == k) && (NextIn(xs, k) == Some(xs[j]) <==> j == k + 1)
  {
    hide WithoutAt;
    WithoutElements(xs, k);
  }

  lemma WithoutEnds(xs: seq<Thread>, k: nat)
    requires k < |xs| && Distinct(xs)
    ensures var ys := WithoutAt(xs, k);
      && |ys| == |xs| - 1 && Distinct(ys)
      && (if ys == [] then None else Some(ys[0])) == (if k == 0 then NextIn(xs, k) else Some(xs[0]))
      && PreviousIn(ys, |ys|) == (if k == |ys| then PreviousIn(xs, k) else PreviousIn(xs, |xs|))
      && (PreviousIn(xs, k) == None <==> k == 0) && (NextIn(xs, k) == None <==> k == |ys|)
      && (k > 0 ==> PreviousIn(xs, k) == Some(xs[k - 1])) && (k < |ys| ==> NextIn(xs, k) == Some(xs[k + 1]))
  {
    hide WithoutAt;
    WithoutElements(xs, k);
    var ys := WithoutAt(xs, k);
    forall i, j | 0 <= i < j < |ys| ensures ys[i] != ys[j] {
    }
  }

  /** m_Count-- on 64 bits. */
  function Less(count: nat): nat {
    if count == 0 then 0xFFFF_FFFF_FFFF_FFFF else count - 1
  }

  /** What remove makes of the list it is called on and of the links. */
  ghost predicate Unlinked(m: Memory, l: List, t: Thread, m': Memory, l': List)
    requires RemoveAllowed(m, l, t)
  {
    var before, after := m[t].previous, m[t].next;
    var m1 := if before != None then m[before.value := m[before.value].(next := after)] else m;
    && (after != None ==> after.value in m1)
    && m' == (if after != None then m1[after.value := m1[after.value].(previous := before)] else m1)[t := UNLINKED]
    && l' == List(if before != None then l.head else after, if after != None then l.tail else before, Less(l.count))
  }

  method Unlink(m: Memory, l: List, t: Thread) returns (m': Memory, l': List)
    requires RemoveAllowed(m, l, t)
    ensures Unlinked(m, l, t, m', l')
  {
    var before, after := m[t].previous, m[t].next;
    m' := m;
    if before != None {
      m' := m'[before.value := m'[before.value].(next := after)];
    }
    if after != None {
      m' := m'[after.value := m'[after.value].(previous := before)];
    }
    m' := m'[t := UNLINKED];
    l' := List(if before != None then l.head else after, if after != None then l.tail else before, Less(l.count));
  }

  /** Of a thread of the list: exactly it leaves. */
  lemma UnlinkedOwn(m: Memory, l: List, t: Thread, m': Memory, l': List, xs: seq<Thread>, k: nat)
    requires Linked(m, l, xs) && k < |xs| && xs[k] == t && RemoveAllowed(m, l, t) && Unlinked(m, l, t, m', l')
    ensures Linked(m', l', WithoutAt(xs, k)) && Kept(m, m', xs, t) && t in m' && m'[t] == UNLINKED
  {
    hide WithoutAt, PreviousIn, NextIn, Distinct, RemoveAllowed;
    WithoutEnds(xs, k);
    var ys := WithoutAt(xs, k);
    forall i | 0 <= i < |ys| ensures ys[i] in m' && m'[ys[i]] == Links(PreviousIn(ys, i), NextIn(ys, i)) {
      WithoutLinks(xs, k, i);
    }
  }

  // ---------- All the lists of a processor ----------

  ghost predicate InNone(xss: seq<seq<Thread>>, t: Thread) {
    forall l :: 0 <= l < |xss| ==> t !in xss[l]
  }

  ghost predicate Disjoint(xss: seq<seq<Thread>>) {
    forall a, b, t :: 0 <= a < |xss| && 0 <= b < |xss| && a != b && t in xss[a] ==> t !in xss[b]
  }

  /** Every list is linked, no thread is in two, and a thread in none has no links. */
  ghost predicate AllLinked(m: Memory, ls: seq<List>, xss: seq<seq<Thread>>) {
    && |ls| == |xss| && Disjoint(xss)
    && (forall l :: 0 <= l < |ls| ==> Linked(m, ls[l], xss[l]))
    && forall t :: t in m && InNone(xss, t) ==> m[t] == UNLINKED
  }

  /** With all lists in order, pushBack's check lets through exactly the threads in no list and the only threads of other lists. */
  lemma PushCheck(m: Memory, ls: seq<List>, xss: seq<seq<Thread>>, l: nat, t: Thread)
    requires AllLinked(m, ls, xss) && l < |ls| && t in m
    ensures PushAllowed(m, ls[l], t) <==> InNone(xss, t) || exists o :: 0 <= o < |xss| && o != l && xss[o] == [t]
  {
    hide PushAllowed, Linked;
    assert Linked(m, ls[l], xss[l]);
    if t in xss[l] {
      OwnThread(m, ls[l], xss[l], t);
    } else if o :| 0 <= o < |xss| && t in xss[o] {
      assert Linked(m, ls[o], xss[o]);
      var i :| 0 <= i < |xss[o]| && xss[o][i] == t;
      OtherThread(m, ls[l], xss[l], ls[o], xss[o], i);
    } else {
      LooseThread(m, ls[l], xss[l], t);
    }
  }

  lemma LooseThread(m: Memory, l: List, xs: seq<Thread>, t: Thread)
    requires Linked(m, l, xs) && t in m && m[t] == UNLINKED && t !in xs
    ensures PushAllowed(m, l, t)
  {
  }

  lemma Changed(m: Memory, m': Memory, ls: seq<List>, xss: seq<seq<Thread>>, b: nat, t: Thread, l': List, ys: seq<Thread>)
    requires AllLinked(m, ls, xss) && b < |ls| && Kept(m, m', xss[b], t) && Linked(m', l', ys) && t in m
    requires (forall x :: x in ys ==> x in xss[b] || x == t) && (forall x :: x in xss[b] ==> x in ys || x == t)
    requires forall o :: 0 <= o < |xss| && o != b ==> t !in xss[o]
    requires t in ys || m'[t] == UNLINKED
    ensures AllLinked(m', ls[b := l'], xss[b := ys])
  {
    hide Linked;
    var zss := xss[b := ys];
    forall o | 0 <= o < |ls| ensures Linked(m', ls[b := l'][o], zss[o]) {
      if o != b {
        OtherLinked(m, m', xss[b], t, ls[o], xss[o]);
      }
    }
    forall x | x in m' && InNone(zss, x) ensures m'[x] == UNLINKED {
      assert x !in ys by { assert zss[b] == ys; }
      if x != t {
        assert InNone(xss, x) by {
          forall o | 0 <= o < |xss| ensures x !in xss[o] {
            assert x !in zss[o];
          }
        }
      }
    }
  }

  // ---------- Waking sleepers ----------

  /** The lists of a processor: one ready queue for each nice level, then the sleeping threads. */
  const SLEEPING: nat := NICE_LEVELS

  function At(times: map<Thread, nat>, t: Thread): nat {
    if t in times then times[t] else 0
  }

  /** The threads whose time is not over when `ms` more have passed. */
  function Asleep(xs: seq<Thread>, times: map<Thread, nat>, ms: nat): seq<Thread> {
    if xs == [] then []
    else Asleep(xs[..|xs| - 1], times, ms) + if ms >= At(times, xs[|xs| - 1]) then [] else [xs[|xs| - 1]]
  }

  /** The threads of level `l` whose time is over, in the order they went to sleep. */
  function Woken(xs: seq<Thread>, times: map<Thread, nat>, nice: map<Thread, nat>, ms: nat, l: nat): seq<Thread> {
    if xs == [] then []
    else
      var t := xs[|xs| - 1];
      Woken(xs[..|xs| - 1], times, nice, ms, l) + if ms >= At(times, t) && At(nice, t) == l then [t] else []
  }

  /** The lists after the first `n` sleepers have been seen. */
  function Seen(xss: seq<seq<Thread>>, times: map<Thread, nat>, nice: map<Thread, nat>, ms: nat, n: nat): seq<seq<Thread>>
    requires |xss| == SLEEPING + 1 && n <= |xss[SLEEPING]|
  {
    var xs := xss[SLEEPING];
    seq(|xss|, l requires 0 <= l < |xss| => if l == SLEEPING then Asleep(xs[..n], times, ms) + xs[n..] else xss[l] + Woken(xs[..n], times, nice, ms, l))
  }

  /** What has been done to the times after the first `n` sleepers. */
  ghost predicate TimesSeen(xs: seq<Thread>, times: map<Thread, nat>, times': map<Thread, nat>, ms: nat, n: nat) {
    && (forall i :: 0 <= i < |xs| ==> At(times', xs[i]) == if i >= n then At(times, xs[i]) else if ms >= At(times, xs[i]) then 0 else At(times, xs[i]) - ms)
    && forall t: Thread :: t !in xs ==> At(times', t) == At(times, t)
  }

  lemma SeenStart(xss: seq<seq<Thread>>, times: map<Thread, nat>, nice: map<Thread, nat>, ms: nat)
    requires |xss| == SLEEPING + 1
    ensures Seen(xss, times, nice, ms, 0) == xss
  {
    var xs := xss[SLEEPING];
    assert xs[..0] == [] && xs[0..] == xs;
    forall l | 0 <= l < |xss| ensures Seen(xss, times, nice, ms, 0)[l] == xss[l] {
    }
  }

  lemma SeenAsleep(xss: seq<seq<Thread>>, times: map<Thread, nat>, nice: map<Thread, nat>, ms: nat, n: nat)
    requires |xss| == SLEEPING + 1 && n < |xss[SLEEPING]| && ms < At(times, xss[SLEEPING][n])
    ensures Seen(xss, times, nice, ms, n + 1) == Seen(xss, times, nice, ms, n)
  {
    var xs := xss[SLEEPING];
    assert xs[..n + 1][..n] == xs[..n] && xs[n..] == [xs[n]] + xs[n + 1..];
    assert Asleep(xs[..n + 1], times, ms) + xs[n + 1..] == Asleep(xs[..n], times, ms) + xs[n..];
    forall l | 0 <= l < |xss| ensures Seen(xss, times, nice, ms, n + 1)[l] == Seen(xss, times, nice, ms, n)[l] {
      assert Woken(xs[..n + 1], times, nice, ms, l) == Woken(xs[..n], times, nice, ms, l);
    }
  }

  lemma SeenWoken(xss: seq<seq<Thread>>, times: map<Thread, nat>, nice: map<Thread, nat>, ms: nat, n: nat)
    requires |xss| == SLEEPING + 1 && n < |xss[SLEEPING]| && ms >= At(times, xss[SLEEPING][n]) && At(nice, xss[SLEEPING][n]) < SLEEPING
    ensures var t := xss[SLEEPING][n]; var l := At(nice, t); var k := |Asleep(xss[SLEEPING][..n], times, ms)|;
      var zss := Seen(xss, times, nice, ms, n);
      && k < |zss[SLEEPING]| && zss[SLEEPING][k] == t
      && Seen(xss, times, nice, ms, n + 1) == zss[SLEEPING := WithoutAt(zss[SLEEPING], k)][l := zss[l] + [t]]
  {
    var xs, zss := xss[SLEEPING], Seen(xss, times, nice, ms, n);
    var k, t, z := |Asleep(xs[..n], times, ms)|, xs[n], At(nice, xs[n]);
    assert xs[n..] == [t] + xs[n + 1..];
    var wss := zss[SLEEPING := WithoutAt(zss[SLEEPING], k)][z := zss[z] + [t]];
    forall l | 0 <= l < |xss| ensures Seen(xss, times, nice, ms, n + 1)[l] == wss[l] {
      WokenNext(xs, times, nice, ms, n, l);
      hide Asleep, Woken;
    }
  }

  lemma WokenNext(xs: seq<Thread>, times: map<Thread, nat>, nice: map<Thread, nat>, ms: nat, n: nat, l: nat)
    requires n < |xs| && ms >= At(times, xs[n])
    ensures Asleep(xs[..n + 1], times, ms) == Asleep(xs[..n], times, ms)
    ensures Woken(xs[..n + 1], times, nice, ms, l) == Woken(xs[..n], times, nice, ms, l) + if At(nice, xs[n]) == l then [xs[n]] else []
    ensures var rest := Asleep(xs[..n], times, ms); WithoutAt(rest + xs[n..], |rest|) == rest + xs[n + 1..]
  {
    assert xs[..n + 1][..n] == xs[..n] && xs[n..] == [xs[n]] + xs[n + 1..];
    var rest := Asleep(xs[..n], times, ms);
    assert WithoutAt(rest + xs[n..], |rest|) == rest + xs[n + 1..];
  }

  lemma SeenNext(xss: seq<seq<Thread>>, times: map<Thread, nat>, nice: map<Thread, nat>, ms: nat, n: nat)
    requires |xss| == SLEEPING + 1 && n < |xss[SLEEPING]|
    ensures |Seen(xss, times, nice, ms, n)| == SLEEPING + 1
    ensures var zs := Seen(xss, times, nice, ms, n)[SLEEPING]; var k := |Asleep(xss[SLEEPING][..n], times, ms)|;
      k < |zs| && zs[k] == xss[SLEEPING][n] && NextIn(zs, k) == NextIn(xss[SLEEPING], n)
  {
  }

  /** Takes the thread off the sleeping list and appends it to its ready queue. */
  method Wake(m: Memory, ls: seq<List>, t: Thread, l: nat, ghost zss: seq<seq<Thread>>, ghost k: nat) returns (m': Memory, ls': seq<List>)
    requires AllLinked(m, ls, zss) && |zss| == SLEEPING + 1 && l < SLEEPING && k < |zss[SLEEPING]| && zss[SLEEPING][k] == t
    ensures AllLinked(m', ls', zss[SLEEPING := WithoutAt(zss[SLEEPING], k)][l := zss[l] + [t]]) && m'.Keys == m.Keys && |ls'| == |ls|
  {
    hide Linked, PushAllowed, Distinct, RemoveAllowed, Unlinked;
    LinkedThreads(m, ls[SLEEPING], zss[SLEEPING]);
    OwnThread(m, ls[SLEEPING], zss[SLEEPING], t);
    var m1, sleeping := Unlink(m, ls[SLEEPING], t);
    UnlinkedOwn(m, ls[SLEEPING], t, m1, sleeping, zss[SLEEPING], k);
    ghost var yss := zss[SLEEPING := WithoutAt(zss[SLEEPING], k)];
    WithoutThreads(zss[SLEEPING], k);
    Changed(m, m1, ls, zss, SLEEPING, t, sleeping, yss[SLEEPING]);
    var ls1 := ls[SLEEPING := sleeping];
    PushCheck(m1, ls1, yss, l, t);
    var m2, queue := LinkLast(m1, ls1[l], t, yss[l]);
    Changed(m1, m2, ls1, yss, l, t, queue, yss[l] + [t]);
    m', ls' := m2, ls1[l := queue];
  }

  lemma LinkedThreads(m: Memory, l: List, xs: seq<Thread>)
    requires Linked(m, l, xs)
    ensures Distinct(xs) && forall x :: x in xs ==> x in m
  {
  }

  lemma WithoutThreads(xs: seq<Thread>, k: nat)
    requires k < |xs| && Distinct(xs)
    ensures forall x :: x in WithoutAt(xs, k) <==> x in xs && x != xs[k]
  {
    forall x | x in xs && x != xs[k] ensures x in WithoutAt(xs, k) {
      var i :| 0 <= i < |xs| && xs[i] == x;
      assert WithoutAt(xs, k)[if i < k then i else i - 1] == x;
    }
  }

  lemma TimesNext(xs: seq<Thread>, times: map<Thread, nat>, times': map<Thread, nat>, ms: nat, n: nat)
    requires TimesSeen(xs, times, times', ms, n) && n < |xs| && Distinct(xs)
    ensures At(times', xs[n]) == At(times, xs[n])
    ensures TimesSeen(xs, times, times'[xs[n] := if ms >= At(times, xs[n]) then 0 else At(times, xs[n]) - ms], ms, n + 1)
  {
  }

  lemma TimesStart(xs: seq<Thread>, times: map<Thread, nat>, ms: nat)
    ensures TimesSeen(xs, times, times, ms, 0)
  {
  }

  lemma ListFacts(m: Memory, ls: seq<List>, xss: seq<seq<Thread>>)
    requires AllLinked(m, ls, xss) && |xss| == SLEEPING + 1
    ensures |ls| == SLEEPING + 1 && ls[SLEEPING].count == |xss[SLEEPING]| && Distinct(xss[SLEEPING])
    ensures ls[SLEEPING].head == if xss[SLEEPING] == [] then None else Some(xss[SLEEPING][0])
  {
    assert Linked(m, ls[SLEEPING], xss[SLEEPING]);
  }

  lemma NextRead(m: Memory, ls: seq<List>, zss: seq<seq<Thread>>, k: nat)
    requires AllLinked(m, ls, zss) && |zss| == SLEEPING + 1 && k < |zss[SLEEPING]|
    ensures zss[SLEEPING][k] in m && m[zss[SLEEPING][k]].next == NextIn(zss[SLEEPING], k)
  {
    assert Linked(m, ls[SLEEPING], zss[SLEEPING]);
  }

  /** The enumeration of a timer tick: each next thread is read before the current one may be taken off the list. */
  method WakeSleepers(m: Memory, ls: seq<List>, times: map<Thread, nat>, nice: map<Thread, nat>, ms: nat, ghost xss: seq<seq<Thread>>)
      returns (m': Memory, ls': seq<List>, times': map<Thread, nat>)
    requires AllLinked(m, ls, xss) && |xss| == SLEEPING + 1 && forall t :: t in xss[SLEEPING] ==> At(nice, t) < SLEEPING
    ensures AllLinked(m', ls', Seen(xss, times, nice, ms, |xss[SLEEPING]|)) && TimesSeen(xss[SLEEPING], times, times', ms, |xss[SLEEPING]|)
    ensures m'.Keys == m.Keys && |ls'| == |ls|
  {
    hide AllLinked, Seen, TimesSeen, Distinct, Linked;
    ghost var xs := xss[SLEEPING];
    ListFacts(m, ls, xss);
    m', ls', times' := m, ls, times;
    var thread, originalCount := ls[SLEEPING].head, ls[SLEEPING].count;
    SeenStart(xss, times, nice, ms);
    TimesStart(xs, times, ms);
    var i := 0;
    while i < originalCount && thread != None
      invariant i <= originalCount == |xs|
      invariant m'.Keys == m.Keys && |ls'| == |ls|
      invariant thread == if i < |xs| then Some(xs[i]) else None
      invariant AllLinked(m', ls', Seen(xss, times, nice, ms, i)) && TimesSeen(xs, times, times', ms, i)
    {
      var t := thread.value;
      SeenNext(xss, times, nice, ms, i);
      ghost var k := |Asleep(xs[..i], times, ms)|;
      NextRead(m', ls', Seen(xss, times, nice, ms, i), k);
      TimesNext(xs, times, times', ms, i);
      var next := m'[t].next;
      if ms >= At(times', t) {
        SeenWoken(xss, times, nice, ms, i);
        times' := times'[t := 0];
        m', ls' := Wake(m', ls', t, At(nice, t), Seen(xss, times, nice, ms, i), k);
      } else {
        SeenAsleep(xss, times, nice, ms, i);
        times' := times'[t := At(times', t) - ms];
      }
      thread, i := next, i + 1;
    }
  }

  /** A tick leaves a sleeper asleep exactly when its time is not over, and else puts it on the queue of its level and no other. */
  lemma {:induction false} WhereSleepersGo(xs: seq<Thread>, times: map<Thread, nat>, nice: map<Thread, nat>, ms: nat, l: nat, t: Thread)
    ensures t in Asleep(xs, times, ms) <==> t in xs && At(times, t) > ms
    ensures t in Woken(xs, times, nice, ms, l) <==> t in xs && At(times, t) <= ms && At(nice, t) == l
  {
    if xs != [] {
      var rest, last := xs[..|xs| - 1], xs[|xs| - 1];
      assert xs == rest + [last];
      WhereSleepersGo(rest, times, nice, ms, l, t);
    }
  }

  /** The thread leaves list `l`, and no other list changes. */
  ghost predicate Leaves(xss: seq<seq<Thread>>, xss': seq<seq<Thread>>, l: nat, t: Thread) {
    l < |xss| && exists k: nat :: k < |xss[l]| && xss[l][k] == t && xss' == xss[l := WithoutAt(xss[l], k)]
  }

  // ---------- The lists of one processor ----------

  class ProcessorLists {
    const nice: map<Thread, nat>
    var memory: Memory
    var lists: seq<List>
    var times: map<Thread, nat>
    ghost var contents: seq<seq<Thread>>

    ghost predicate Valid()
      reads this
    {
      && |contents| == SLEEPING + 1 && AllLinked(memory, lists, contents)
      && forall t :: t in memory ==> t in nice && nice[t] < NICE_LEVELS
    }

    constructor (threads: set<Thread>, nice: map<Thread, nat>)
      requires forall t :: t in threads ==> t in nice && nice[t] < NICE_LEVELS
      ensures Valid() && contents == seq(SLEEPING + 1, _ => []) && memory.Keys == threads
    {
      this.nice := nice;
      memory, times := map t | t in threads :: UNLINKED, map[];
      lists, contents := seq(SLEEPING + 1, _ => List(None, None, 0)), seq(SLEEPING + 1, _ => []);
    }

    /** pushBack with its assertion; the lists stay in order exactly if the thread was in none of them. */
    method PushBack(l: nat, t: Thread)
      requires Valid() && l <= SLEEPING && PushAllowed(memory, lists[l], t)
      modifies this
      ensures Valid() <==> InNone(old(contents), t)
      ensures |contents| == |lists| == SLEEPING + 1
      ensures contents == old(contents)[l := old(contents)[l] + [t]] && Linked(memory, lists[l], contents[l])
      ensures memory.Keys == old(memory.Keys) && times == old(times)
    {
      hide Linked, PushAllowed, Distinct, InNone;
      var m, list := LinkLast(memory, lists[l], t, contents[l]);
      if InNone(contents, t) {
        NoneElsewhere(contents, l, t);
        Changed(memory, m, lists, contents, l, t, list, contents[l] + [t]);
      } else {
        InTwoLists(contents, l, t);
      }
      memory, lists, contents := m, lists[l := list], contents[l := contents[l] + [t]];
    }

    method PopFront(l: nat) returns (t: Option<Thread>)
      requires Valid() && l <= SLEEPING
      modifies this
      ensures Valid() && memory.Keys == old(memory.Keys) && times == old(times)
      ensures old(contents)[l] == [] ==> t == None && contents == old(contents)
      ensures old(contents)[l] != [] ==> t == Some(old(contents)[l][0]) && contents == old(contents)[l := old(contents)[l][1..]] && InNone(contents, t.value)
    {
      hide Linked, Distinct, Disjoint, InNone;
      ghost var xs := contents[l];
      LinkedThreads(memory, lists[l], xs);
      var m, list;
      m, list, t := UnlinkFirst(memory, lists[l], xs);
      if t != None {
        PoppedThreads(xs);
        PoppedElsewhere(contents, l);
        Changed(memory, m, lists, contents, l, xs[0], list, xs[1..]);
        memory, lists, contents := m, lists[l := list], contents[l := xs[1..]];
      }
    }

    /** remove with its assertion; the lists stay in order exactly if the thread was in this one. */
    method Remove(l: nat, t: Thread)
      requires Valid() && l <= SLEEPING && RemoveAllowed(memory, lists[l], t)
      modifies this
      ensures |contents| == |lists| == SLEEPING + 1 && memory.Keys == old(memory.Keys) && times == old(times)
      ensures Valid() <==> t in old(contents)[l]
      ensures Valid() ==> Leaves(old(contents), contents, l, t) && InNone(contents, t)
      ensures !Valid() ==> contents == old(contents) && lists[l].count == Less(|contents[l]|)
    {
      hide Linked, Distinct, RemoveAllowed, Unlinked, InNone, Disjoint, WithoutAt;
      ghost var xs := contents[l];
      LinkedThreads(memory, lists[l], xs);
      UnlinkedKeys(memory, lists[l], t, xs);
      var m, list := Unlink(memory, lists[l], t);
      if t in xs {
        ghost var k: nat :| k < |xs| && xs[k] == t;
        UnlinkedOwn(memory, lists[l], t, m, list, xs, k);
        WithoutThreads(xs, k);
        OnlyHere(contents, l, t);
        RemovedElsewhere(contents, l, k);
        Changed(memory, m, lists, contents, l, t, list, WithoutAt(xs, k));
        contents := contents[l := WithoutAt(xs, k)];
      } else {
        NotLinked(m, list, xs);
      }
      memory, lists := m, lists[l := list];
    }

    /** The part of TimerTick that looks at the sleeping threads. */
    method Tick(ms: nat)
      requires Valid()
      modifies this
      ensures Valid() && memory.Keys == old(memory.Keys)
      ensures contents == Seen(old(contents), old(times), nice, ms, |old(contents)[SLEEPING]|)
      ensures TimesSeen(old(contents)[SLEEPING], old(times), times, ms, |old(contents)[SLEEPING]|)
    {
      hide Linked, Seen, TimesSeen;
      LinkedThreads(memory, lists[SLEEPING], contents[SLEEPING]);
      var m, ls, ts := WakeSleepers(memory, lists, times, nice, ms, contents);
      memory, lists, times, contents := m, ls, ts, Seen(contents, times, nice, ms, |contents[SLEEPING]|);
    }
  }

  lemma PoppedThreads(xs: seq<Thread>)
    requires xs != [] && Distinct(xs)
    ensures forall x :: x in xs[1..] <==> x in xs && x != xs[0]
  {
    assert xs == [xs[0]] + xs[1..];
    assert xs[0] !in xs[1..];
  }

  lemma PoppedElsewhere(xss: seq<seq<Thread>>, l: nat)
    requires Disjoint(xss) && l < |xss| && xss[l] != [] && Distinct(xss[l])
    ensures var t := xss[l][0]; (forall o :: 0 <= o < |xss| && o != l ==> t !in xss[o]) && InNone(xss[l := xss[l][1..]], t)
  {
    hide Distinct;
    PoppedThreads(xss[l]);
    assert xss[l][0] in xss[l];
  }

  lemma NoneElsewhere(xss: seq<seq<Thread>>, l: nat, t: Thread)
    requires InNone(xss, t)
    ensures forall o :: 0 <= o < |xss| && o != l ==> t !in xss[o]
  {
  }

  lemma InTwoLists(xss: seq<seq<Thread>>, l: nat, t: Thread)
    requires l < |xss| && t !in xss[l] && !InNone(xss, t)
    ensures !Disjoint(xss[l := xss[l] + [t]])
  {
    var o :| 0 <= o < |xss| && t in xss[o];
    var yss := xss[l := xss[l] + [t]];
    assert t in yss[o] && t in yss[l];
  }

  /** Removing keeps the threads, and changes the count. */
  lemma UnlinkedKeys(m: Memory, l: List, t: Thread, xs: seq<Thread>)
    requires Linked(m, l, xs) && RemoveAllowed(m, l, t)
    ensures l.count == |xs| && forall m', l' :: Unlinked(m, l, t, m', l') ==> m'.Keys == m.Keys && l'.count == Less(l.count) != l.count
  {
    hide Linked;
    CountIs(m, l, xs);
  }

  lemma CountIs(m: Memory, l: List, xs: seq<Thread>)
    requires Linked(m, l, xs)
    ensures l.count == |xs|
  {
  }

  lemma NotLinked(m: Memory, l: List, xs: seq<Thread>)
    requires l.count != |xs|
    ensures !Linked(m, l, xs)
  {
  }

  lemma OnlyHere(xss: seq<seq<Thread>>, l: nat, t: Thread)
    requires Disjoint(xss) && l < |xss| && t in xss[l]
    ensures forall o :: 0 <= o < |xss| && o != l ==> t !in xss[o]
  {
  }

  lemma RemovedElsewhere(xss: seq<seq<Thread>>, l: nat, k: nat)
    requires Disjoint(xss) && l < |xss| && k < |xss[l]| && Distinct(xss[l])
    ensures InNone(xss[l := WithoutAt(xss[l], k)], xss[l][k])
  {
    hide Distinct, WithoutAt, Disjoint;
    OnlyHere(xss, l, xss[l][k]);
    WithoutThreads(xss[l], k);
  }

  /** With all lists in order, remove's check lets through exactly the threads of the list and those inside another one. */
  lemma RemoveCheck(m: Memory, ls: seq<List>, xss: seq<seq<Thread>>, l: nat, t: Thread)
    requires AllLinked(m, ls, xss) && l < |ls| && t in m
    ensures RemoveAllowed(m, ls[l], t) <==>
      t in xss[l] || exists o, i :: 0 <= o < |xss| && o != l && 0 < i < |xss[o]| - 1 && xss[o][i] == t
  {
    hide RemoveAllowed, Linked;
    assert Linked(m, ls[l], xss[l]);
    if t in xss[l] {
      OwnThread(m, ls[l], xss[l], t);
    } else if o :| 0 <= o < |xss| && t in xss[o] {
      assert Linked(m, ls[o], xss[o]);
      var i :| 0 <= i < |xss[o]| && xss[o][i] == t;
      OtherThread(m, ls[l], xss[l], ls[o], xss[o], i);
      SamePlace(m, ls, xss, l, o, i, t);
    } else {
      LooseRemove(m, ls[l], xss[l], t);
    }
  }

  lemma SamePlace(m: Memory, ls: seq<List>, xss: seq<seq<Thread>>, l: nat, o: nat, i: nat, t: Thread)
    requires AllLinked(m, ls, xss) && o < |xss| && o != l && i < |xss[o]| && xss[o][i] == t
    ensures forall o', i' :: 0 <= o' < |xss| && o' != l && 0 <= i' < |xss[o']| && xss[o'][i'] == t ==> o' == o && i' == i
  {
    assert Linked(m, ls[o], xss[o]);
    forall o', i' | 0 <= o' < |xss| && o' != l && 0 <= i' < |xss[o']| && xss[o'][i'] == t ensures o' == o && i' == i {
      assert t in xss[o'] && t in xss[o];
    }
  }

  lemma LooseRemove(m: Memory, l: List, xs: seq<Thread>, t: Thread)
    requires Linked(m, l, xs) && t in m && m[t] == UNLINKED && t !in xs
    ensures !RemoveAllowed(m, l, t)
  {
    assert xs != [] ==> xs[0] in xs;
  }

  // ---------- Where the assertions are wrong ----------

  /** The lists of a processor with threads in the first one only. */
  function First(xs: seq<Thread>): (xss: seq<seq<Thread>>)
    ensures |xss| == SLEEPING + 1 && xss[0] == xs && forall l :: 1 <= l < |xss| ==> xss[l] == []
  {
    seq(SLEEPING + 1, l => if l == 0 then xs else [])
  }

  lemma FirstPushed(xss: seq<seq<Thread>>, xs: seq<Thread>, t: Thread)
    requires xss == First(xs) && t !in xs
    ensures InNone(xss, t) && xss[0 := xss[0] + [t]] == First(xs + [t])
  {
  }

  /** Appends a thread that is in no list to the first one. */
  method PushFirst(p: ProcessorLists, t: Thread, ghost xs: seq<Thread>)
    requires p.Valid() && p.contents == First(xs) && t in p.memory && t !in xs
    modifies p
    ensures p.Valid() && p.contents == First(xs + [t]) && p.memory.Keys == old(p.memory.Keys)
  {
    hide Linked, InNone, First, PushAllowed, Disjoint;
    FirstPushed(p.contents, xs, t);
    PushCheck(p.memory, p.lists, p.contents, 0, t);
    p.PushBack(0, t);
  }

  /** A processor with these threads in its first list. */
  method Filled(threads: seq<Thread>) returns (p: ProcessorLists)
    requires Distinct(threads)
    ensures fresh(p) && p.Valid() && p.contents == First(threads) && forall t :: t in threads ==> t in p.memory
  {
    var all := set t | t in threads;
    p := new ProcessorLists(all, map t | t in all :: 0);
    FirstEmpty(p.contents);
    hide *;
    for i := 0 to |threads|
      invariant fresh(p) && p.Valid() && p.contents == First(threads[..i]) && p.memory.Keys == all
    {
      NextThread(threads, i);
      PushFirst(p, threads[i], threads[..i]);
    }
    assert threads[..|threads|] == threads;
  }

  lemma NextThread(threads: seq<Thread>, i: nat)
    requires i < |threads| && Distinct(threads)
    ensures threads[i] !in threads[..i] && threads[..i + 1] == threads[..i] + [threads[i]]
  {
  }

  lemma FirstEmpty(xss: seq<seq<Thread>>)
    requires xss == seq(SLEEPING + 1, _ => [])
    ensures xss == First([])
  {
  }

  /** The only thread of one list pushed onto another. */
  method PushedTwice() returns (p: ProcessorLists)
    ensures !p.Valid() && |p.contents| == SLEEPING + 1 && p.contents[0] == p.contents[1] == [0]
  {
    p := Filled([0]);
    hide Linked, AllLinked, InNone;
    assert p.contents[0] == [0];
    PushCheck(p.memory, p.lists, p.contents, 1, 0);
    InFirst(p.contents, 0);
    p.PushBack(1, 0);
  }

  lemma InFirst(xss: seq<seq<Thread>>, t: Thread)
    requires |xss| > 0 && t in xss[0]
    ensures !InNone(xss, t)
  {
  }

  /** The middle of three threads of one list removed from another. */
  method RemovedFromOther() returns (p: ProcessorLists)
    ensures !p.Valid() && |p.contents| == |p.lists| == SLEEPING + 1
    ensures p.contents[0] == [0, 1, 2] && p.contents[1] == [] && p.lists[1].count == 0xFFFF_FFFF_FFFF_FFFF
  {
    p := Filled([0, 1, 2]);
    hide Linked, AllLinked;
    assert p.contents[0] == [0, 1, 2] && p.contents[0][1] == 1;
    RemoveCheck(p.memory, p.lists, p.contents, 1, 1);
    p.Remove(1, 1);
  }
}
