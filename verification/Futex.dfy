/**
 The kernel half of the futex (sys_futex_wait, sys_futex_wake, sleep and wakeup), as a step system over one
 word shared by any number of threads. A step is what one thread does between two lock operations. Threads are
 numbered by their place in the process table, which is the order wakeup visits them in.
 */
module Futex {

  datatype Pc =
    | User                  // not in a futex call
    | WaitEnter(val: int)   // wants futex_lock, to look at the word
    | Check(val: int)       // has futex_lock; about to read the word
    | Sleepy(val: int)      // has futex_lock; read `val`; wants its own p->lock
    | Both(val: int)        // has futex_lock and p->lock; about to release futex_lock
    | Doze(val: int)        // has p->lock; about to become SLEEPING and switch away, which releases it
    | Asleep(val: int)      // SLEEPING on the word's address
    | Runnable(val: int)    // woken; waits for the scheduler, which takes p->lock
    | Resumed(val: int)     // back in sleep with p->lock; about to release it
    | WaitDone              // has futex_lock; read another value; about to return
    | WakeEnter             // wants futex_lock, to wake the sleepers
    | Waking(i: nat)        // has futex_lock; wakeup has come to entry i
    | WakingAt(i: nat)      // has futex_lock and the p->lock of entry i

  datatype Lock = Free | Held(holder: nat)

  datatype Kernel = Kernel(word: int, futex: Lock, plock: seq<Lock>, pc: seq<Pc>)

  predicate CanStep(k: Kernel, t: nat) {
    && t < |k.pc| == |k.plock|
    && match k.pc[t]
       case User => false
       case WaitEnter(_) => k.futex.Free?
       case Sleepy(_) => k.plock[t].Free?
       case Asleep(_) => false
       case Runnable(_) => k.plock[t].Free?
       case WakeEnter => k.futex.Free?
       case Waking(i) => i >= |k.pc| || i == t || k.plock[i].Free?
       case WakingAt(i) => i < |k.pc|
       case _ => true
  }

  function Step(k: Kernel, t: nat): (r: Kernel)
    requires CanStep(k, t)
  {
    match k.pc[t]
    case WaitEnter(v) => k.(futex := Held(t), pc := k.pc[t := Check(v)])
    case Check(v) => k.(pc := k.pc[t := if k.word == v then Sleepy(v) else WaitDone])
    case Sleepy(v) => k.(plock := k.plock[t := Held(t)], pc := k.pc[t := Both(v)])
    case Both(v) => k.(futex := Free, pc := k.pc[t := Doze(v)])
    case Doze(v) => k.(plock := k.plock[t := Free], pc := k.pc[t := Asleep(v)])
    case Runnable(v) => k.(plock := k.plock[t := Held(t)], pc := k.pc[t := Resumed(v)])
    case Resumed(v) => k.(plock := k.plock[t := Free], pc := k.pc[t := WaitEnter(v)])
    case WaitDone => k.(futex := Free, pc := k.pc[t := User])
    case WakeEnter => k.(futex := Held(t), pc := k.pc[t := Waking(0)])
    case Waking(i) =>
      if i >= |k.pc| then k.(futex := Free, pc := k.pc[t := User])
      else if i == t then k.(pc := k.pc[t := Waking(i + 1)])
      else k.(plock := k.plock[i := Held(t)], pc := k.pc[t := WakingAt(i)])
    case WakingAt(i) =>
      var woken := if k.pc[i].Asleep? then k.pc[i := Runnable(k.pc[i].val)] else k.pc;
      k.(plock := k.plock[i := Free], pc := woken[t := Waking(i + 1)])
  }

  /** A kill, or a wakeup on the same address by an unrelated process. */
  predicate CanStray(k: Kernel, t: nat) {
    t < |k.pc| == |k.plock| && k.pc[t].Asleep? && k.plock[t].Free?
  }

  function Stray(k: Kernel, t: nat): (r: Kernel)
    requires CanStray(k, t)
  {
    k.(pc := k.pc[t := Runnable(k.pc[t].val)])
  }

  lemma StepWord(k: Kernel, t: nat)
    requires CanStep(k, t)
    ensures Step(k, t).word == k.word
  {
  }

  // ----- the invariant

  predicate HasFutex(pc: Pc) {
    pc.Check? || pc.Sleepy? || pc.Both? || pc.WaitDone? || pc.Waking? || pc.WakingAt?
  }

  /** Thread `u`, at `pc`, has the p->lock of thread `i`. */
  predicate HasPlock(pc: Pc, u: nat, i: nat) {
    (u == i && (pc.Both? || pc.Doze? || pc.Resumed?)) || pc == WakingAt(i)
  }

  /** Has read `val` and will not look at the word again unless somebody wakes it. */
  predicate Waits(pc: Pc) {
    pc.Sleepy? || pc.Both? || pc.Doze? || pc.Asleep?
  }

  /** Thread `u` is on its way to wake `t`. */
  predicate WillWake(pc: seq<Pc>, u: nat, t: nat) {
    && u < |pc| && u != t
    && (pc[u].WakeEnter? || ((pc[u].Waking? || pc[u].WakingAt?) && pc[u].i <= t))
  }

  ghost predicate FutexHeld(k: Kernel, t: nat) {
    k.futex == Held(t) <==> t < |k.pc| && HasFutex(k.pc[t])
  }

  ghost predicate PlockHeld(k: Kernel, u: nat, i: nat) {
    && |k.plock| == |k.pc|
    && (i < |k.pc| ==> (k.plock[i] == Held(u) <==> u < |k.pc| && HasPlock(k.pc[u], u, i)))
  }

  ghost predicate InTable(pc: seq<Pc>, u: nat) {
    u < |pc| ==> && (pc[u].Waking? ==> pc[u].i <= |pc|)
                 && (pc[u].WakingAt? ==> pc[u].i < |pc| && pc[u].i != u)
  }

  /** No lost wakeup: a waiter still sees the value it waits for, or its waker is on the way. */
  ghost predicate NotLost(k: Kernel, t: nat) {
    t < |k.pc| && Waits(k.pc[t]) ==> k.pc[t].val == k.word || exists u :: WillWake(k.pc, u, t)
  }

  ghost predicate Inv(k: Kernel) {
    && |k.plock| == |k.pc|
    && (forall t :: FutexHeld(k, t))
    && (forall u, i :: PlockHeld(k, u, i))
    && (forall u :: InTable(k.pc, u))
    && (forall t :: NotLost(k, t))
  }

  /** Inside futex_wait(uaddr, v), or just back from it. */
  predicate InWait(pc: Pc, v: int) {
    pc.User? || pc.WaitDone?
    || ((pc.WaitEnter? || pc.Check? || Waits(pc) || pc.Runnable? || pc.Resumed?) && pc.val == v)
  }

  /** Inside futex_wake(uaddr), or just back from it. */
  predicate InWake(pc: Pc) {
    pc.User? || pc.WakeEnter? || pc.Waking? || pc.WakingAt?
  }

  /** Everybody in user code, no lock held, the word at `v`. */
  ghost predicate Init(k: Kernel, v: int) {
    && |k.plock| == |k.pc| && k.word == v && k.futex.Free?
    && (forall t :: 0 <= t < |k.pc| ==> k.pc[t].User? && k.plock[t].Free?)
  }

  lemma InitInv(k: Kernel, v: int)
    requires Init(k, v)
    ensures Inv(k)
  {
    forall t ensures FutexHeld(k, t) {}
  }

  lemma StepLocks(k: Kernel, t: nat)
    requires Inv(k) && CanStep(k, t)
    ensures var k' := Step(k, t);
            && |k'.plock| == |k'.pc| && (forall u :: FutexHeld(k', u)) && (forall u :: InTable(k'.pc, u))
            && (forall u, i :: PlockHeld(k', u, i))
  {
    var k' := Step(k, t);
    assert InTable(k.pc, t) && FutexHeld(k, t);
    forall u ensures FutexHeld(k', u) { assert FutexHeld(k, u); }
    forall u ensures InTable(k'.pc, u) { assert InTable(k.pc, u); }
    forall u, i ensures PlockHeld(k', u, i) {
      assert PlockHeld(k, u, i) && PlockHeld(k, t, i) && PlockHeld(k, t, t);
    }
  }

  /** Whoever was on the way to wake `s` still is after a step of `t`, unless that step was the wakeup of `s`. */
  lemma StepWakers(k: Kernel, t: nat, u: nat, s: nat)
    requires Inv(k) && CanStep(k, t) && WillWake(k.pc, u, s) && s < |k.pc| && Waits(Step(k, t).pc[s])
    ensures WillWake(Step(k, t).pc, u, s)
  {
    assert InTable(k.pc, t) && FutexHeld(k, t) && FutexHeld(k, s) && PlockHeld(k, s, s) && PlockHeld(k, t, s);
  }

  lemma StepInv(k: Kernel, t: nat)
    requires Inv(k) && CanStep(k, t)
    ensures Inv(Step(k, t))
  {
    StepLocks(k, t);
    var k' := Step(k, t);
    forall s: nat ensures NotLost(k', s) {
      assert NotLost(k, s);
      if s < |k'.pc| && Waits(k'.pc[s]) && k'.pc[s].val != k'.word {
        var u :| WillWake(k.pc, u, s);
        StepWakers(k, t, u, s);
      }
    }
  }

  lemma StrayInv(k: Kernel, t: nat)
    requires Inv(k) && CanStray(k, t)
    ensures Inv(Stray(k, t))
  {
    var k' := Stray(k, t);
    forall u ensures FutexHeld(k', u) { assert FutexHeld(k, u); }
    forall u ensures InTable(k'.pc, u) { assert InTable(k.pc, u); }
    forall u, i ensures PlockHeld(k', u, i) { assert PlockHeld(k, u, i); }
    forall s: nat ensures NotLost(k', s) {
      assert NotLost(k, s);
      if s < |k'.pc| && Waits(k'.pc[s]) && k'.pc[s].val != k'.word {
        var u :| WillWake(k.pc, u, s);
        assert WillWake(k'.pc, u, s);
      }
    }
  }

  // ----- what user code does to the word

  /** Enters futex_wait or futex_wake, having just stored `v` in the word. */
  function Enter(k: Kernel, t: nat, v: int, call: Pc): (r: Kernel)
    requires t < |k.pc|
  {
    k.(word := v, pc := k.pc[t := call])
  }

  lemma EnterLocks(k: Kernel, t: nat, v: int, call: Pc)
    requires Inv(k) && t < |k.pc| && k.pc[t].User? && (call.User? || call.WaitEnter? || call.WakeEnter?)
    ensures var k' := Enter(k, t, v, call);
            && |k'.plock| == |k'.pc| && (forall u :: FutexHeld(k', u)) && (forall u :: InTable(k'.pc, u))
            && (forall u, i :: PlockHeld(k', u, i))
  {
    var k' := Enter(k, t, v, call);
    forall u ensures FutexHeld(k', u) { assert FutexHeld(k, u); }
    forall u ensures InTable(k'.pc, u) { assert InTable(k.pc, u); }
    forall u, i ensures PlockHeld(k', u, i) { assert PlockHeld(k, u, i); }
  }

  /** A store followed by futex_wake loses no wakeup. */
  lemma WakeInv(k: Kernel, t: nat, v: int)
    requires Inv(k) && t < |k.pc| && k.pc[t].User?
    ensures Inv(Enter(k, t, v, WakeEnter))
  {
    EnterLocks(k, t, v, WakeEnter);
    var k' := Enter(k, t, v, WakeEnter);
    forall s: nat ensures NotLost(k', s) {
      if s < |k'.pc| && s != t { assert WillWake(k'.pc, t, s); }
    }
  }

  /** A store that is not followed by futex_wake loses none if no waiter waits for the old value. */
  lemma QuietInv(k: Kernel, t: nat, v: int, call: Pc)
    requires Inv(k) && t < |k.pc| && k.pc[t].User? && (call.User? || call.WaitEnter?)
    requires v == k.word || forall s :: 0 <= s < |k.pc| && Waits(k.pc[s]) ==> k.pc[s].val != k.word
    ensures Inv(Enter(k, t, v, call))
  {
    EnterLocks(k, t, v, call);
    var k' := Enter(k, t, v, call);
    forall s: nat ensures NotLost(k', s) {
      assert NotLost(k, s);
      if s < |k'.pc| && Waits(k'.pc[s]) && k'.pc[s].val != k'.word {
        var u :| WillWake(k.pc, u, s);
        assert WillWake(k'.pc, u, s);
      }
    }
  }

  // ----- nobody is stuck inside the kernel

  /** The thread that has futex_lock can step, or waits for a p->lock whose holder can. */
  lemma HolderSteps(k: Kernel) returns (v: nat)
    requires Inv(k) && k.futex.Held?
    ensures CanStep(k, v)
  {
    var t := k.futex.holder;
    assert FutexHeld(k, t) && InTable(k.pc, t);
    var i := if k.pc[t].Waking? || k.pc[t].WakingAt? then k.pc[t].i else t;
    if CanStep(k, t) {
      v := t;
    } else {
      v := k.plock[i].holder;
      assert PlockHeld(k, v, i) && FutexHeld(k, v);
    }
  }

  lemma Progress(k: Kernel, t: nat) returns (v: nat)
    requires Inv(k) && t < |k.pc| && !k.pc[t].User? && !k.pc[t].Asleep?
    ensures CanStep(k, v)
  {
    if k.futex.Held? {
      v := HolderSteps(k);
    } else {
      v := t;
      assert FutexHeld(k, t);
      if k.plock[t].Held? {
        var u := k.plock[t].holder;
        assert PlockHeld(k, u, t) && FutexHeld(k, u);
      }
    }
  }

  // ----- and nobody stays there

  /** How far a thread is from leaving the kernel or falling asleep; a waker counts for those it may wake. */
  function Rank(pc: Pc, n: nat): (r: nat) {
    match pc
    case User => 0
    case Asleep(_) => 0
    case Doze(_) => 1
    case Both(_) => 2
    case Sleepy(_) => 3
    case Check(_) => 4
    case WaitEnter(_) => 5
    case Resumed(_) => 6
    case Runnable(_) => 7
    case WaitDone => 1
    case WakeEnter => 10 * n + 2
    case Waking(i) => if i <= n then 10 * (n - i) + 1 else 1
    case WakingAt(i) => if i < n then 10 * (n - i) - 1 else 1
  }

  ghost function Ranks(pc: seq<Pc>, n: nat): (r: nat) {
    if pc == [] then 0 else Ranks(pc[..|pc| - 1], n) + Rank(pc[|pc| - 1], n)
  }

  lemma {:induction false} RanksUpdate(pc: seq<Pc>, n: nat, t: nat, x: Pc)
    requires t < |pc|
    ensures Ranks(pc[t := x], n) == Ranks(pc, n) - Rank(pc[t], n) + Rank(x, n)
  {
    var m := |pc| - 1;
    if t == m {
      assert pc[t := x][..m] == pc[..m];
    } else {
      assert pc[t := x][..m] == pc[..m][t := x];
      RanksUpdate(pc[..m], n, t, x);
    }
  }

  /** Every step brings the threads closer, so that a run of kernel steps is no longer than their rank. */
  lemma StepDescends(k: Kernel, t: nat)
    requires Inv(k) && CanStep(k, t)
    ensures Ranks(Step(k, t).pc, |k.pc|) < Ranks(k.pc, |k.pc|)
  {
    var n := |k.pc|;
    assert InTable(k.pc, t);
    hide Inv, Ranks;
    var pc := k.pc;
    if pc[t].WakingAt? && pc[pc[t].i].Asleep? {
      var i := pc[t].i;
      RanksUpdate(pc, n, i, Runnable(pc[i].val));
      pc := pc[i := Runnable(pc[i].val)];
    }
    RanksUpdate(pc, n, t, Step(k, t).pc[t]);
  }

  /** Nobody is in the kernel but asleep. */
  ghost predicate Quiet(k: Kernel) {
    forall t :: 0 <= t < |k.pc| ==> k.pc[t].User? || k.pc[t].Asleep?
  }

  ghost predicate Steps(k: Kernel, ts: seq<nat>, k': Kernel)
    decreases |ts|
  {
    if ts == [] then k' == k else CanStep(k, ts[0]) && Steps(Step(k, ts[0]), ts[1..], k')
  }

  /** The kernel comes to rest by its own steps, with the word as it was and sleepers that wait for its value. */
  lemma {:induction false} Settles(k: Kernel) returns (ts: seq<nat>, k': Kernel)
    requires Inv(k)
    ensures Steps(k, ts, k') && Inv(k') && Quiet(k') && k'.word == k.word && |k'.pc| == |k.pc|
    ensures forall t :: 0 <= t < |k'.pc| && k'.pc[t].Asleep? ==> k'.pc[t].val == k'.word
    decreases Ranks(k.pc, |k.pc|)
  {
    if t :| 0 <= t < |k.pc| && !k.pc[t].User? && !k.pc[t].Asleep? {
      var v := Progress(k, t);
      StepInv(k, v);
      StepDescends(k, v);
      var rest;
      rest, k' := Settles(Step(k, v));
      ts := [v] + rest;
      assert ts[1..] == rest;
    } else {
      ts, k' := [], k;
      forall t | 0 <= t < |k.pc| && k.pc[t].Asleep? ensures k.pc[t].val == k.word { assert NotLost(k, t); }
    }
  }
}
