/**
 The blocking lock of ulib.c (futex with val 1): test-and-set, futex_wait while it fails; clear, then futex_wake.
 Any number of threads run it on one word, in any interleaving with the kernel steps of module Futex.
 */
module FutexLock {
  import opened Counting
  import Futex

  datatype At =
    | Out        // outside the lock and its calls
    | Trying     // about to test-and-set
    | Waiting    // in futex_wait(uaddr, 1)
    | Holding    // has the lock
    | Waking     // cleared the word; in futex_wake(uaddr)

  datatype State = State(k: Futex.Kernel, at: seq<At>)

  datatype Event = Lock(t: nat) | TestAndSet(t: nat) | WaitReturn(t: nat) | Unlock(t: nat) | WakeReturn(t: nat)
                 | Kernel(t: nat) | Stray(t: nat)

  predicate Enabled(s: State, e: Event) {
    && e.t < |s.at| == |s.k.pc|
    && match e
       case Lock(t) => s.at[t].Out?
       case TestAndSet(t) => s.at[t].Trying?
       case WaitReturn(t) => s.at[t].Waiting? && s.k.pc[t].User?
       case Unlock(t) => s.at[t].Holding?
       case WakeReturn(t) => s.at[t].Waking? && s.k.pc[t].User?
       case Kernel(t) => Futex.CanStep(s.k, t)
       case Stray(t) => Futex.CanStray(s.k, t)
  }

  function Next(s: State, e: Event): (r: State)
    requires Enabled(s, e)
  {
    match e
    case Lock(t) => s.(at := s.at[t := Trying])
    case TestAndSet(t) =>
      if s.k.word != 0 then State(Futex.Enter(s.k, t, 1, Futex.WaitEnter(1)), s.at[t := Waiting])
      else State(Futex.Enter(s.k, t, 1, Futex.User), s.at[t := Holding])
    case WaitReturn(t) => s.(at := s.at[t := Trying])
    case Unlock(t) => State(Futex.Enter(s.k, t, 0, Futex.WakeEnter), s.at[t := Waking])
    case WakeReturn(t) => s.(at := s.at[t := Out])
    case Kernel(t) => s.(k := Futex.Step(s.k, t))
    case Stray(t) => s.(k := Futex.Stray(s.k, t))
  }

  ghost predicate Init(s: State) {
    && |s.at| == |s.k.pc| && Futex.Init(s.k, 0)
    && (forall t :: 0 <= t < |s.at| ==> s.at[t].Out?)
  }

  ghost predicate Run(s: State, run: seq<Event>, s': State)
    decreases |run|
  {
    if run == [] then s' == s else Enabled(s, run[0]) && Run(Next(s, run[0]), run[1..], s')
  }

  // ----- the invariant

  ghost predicate Matches(s: State, t: nat) {
    t < |s.at| == |s.k.pc| ==>
      match s.at[t]
      case Waiting => Futex.InWait(s.k.pc[t], 1)
      case Waking => Futex.InWake(s.k.pc[t])
      case _ => s.k.pc[t].User?
  }

  ghost predicate Holds(at: At) {
    at.Holding?
  }

  ghost predicate Inv(s: State) {
    && |s.at| == |s.k.pc| && Futex.Inv(s.k)
    && (forall t :: Matches(s, t))
    && s.k.word <= 1 && Count(s.at, Holds) == s.k.word
  }

  lemma InitInv(s: State)
    requires Init(s)
    ensures Inv(s)
  {
    Futex.InitInv(s.k, 0);
    CountZero(s.at, Holds);
  }

  lemma MatchesNext(s: State, e: Event)
    requires Inv(s) && Enabled(s, e)
    ensures forall t :: Matches(Next(s, e), t)
  {
    hide Futex.Inv;
    forall t ensures Matches(Next(s, e), t) {
      assert Matches(s, t) && Matches(s, e.t);
    }
  }

  lemma KernelNext(s: State, e: Event)
    requires Inv(s) && Enabled(s, e)
    ensures Futex.Inv(Next(s, e).k)
  {
    hide Futex.Inv;
    assert Matches(s, e.t);
    match e
    case TestAndSet(t) =>
      forall w | 0 <= w < |s.k.pc| && Futex.Waits(s.k.pc[w]) ensures s.k.pc[w].val == 1 { assert Matches(s, w); }
      Futex.QuietInv(s.k, t, 1, if s.k.word != 0 then Futex.WaitEnter(1) else Futex.User);
    case Unlock(t) => Futex.WakeInv(s.k, t, 0);
    case Kernel(t) => Futex.StepInv(s.k, t);
    case Stray(t) => Futex.StrayInv(s.k, t);
    case _ =>
  }

  lemma InvNext(s: State, e: Event)
    requires Inv(s) && Enabled(s, e)
    ensures Inv(Next(s, e))
  {
    MatchesNext(s, e);
    KernelNext(s, e);
    hide Futex.Inv;
    if e.TestAndSet? || e.Unlock? || e.Lock? || e.WaitReturn? || e.WakeReturn? {
      CountUpdate(s.at, Holds, e.t, Next(s, e).at[e.t]);
    }
    if e.Unlock? { CountPositive(s.at, Holds, e.t); }
  }

  lemma {:induction false} InvRun(s: State, run: seq<Event>, s': State)
    requires Inv(s) && Run(s, run, s')
    ensures Inv(s')
    decreases |run|
  {
    if run != [] {
      InvNext(s, run[0]);
      InvRun(Next(s, run[0]), run[1..], s');
    }
  }

  // ----- what holds in every reachable state

  /** At most one thread has the lock, and one has exactly when the word is 1. */
  lemma MutualExclusion(s: State, run: seq<Event>, s': State)
    requires Init(s) && Run(s, run, s')
    ensures s'.k.word == 0 || s'.k.word == 1
    ensures s'.k.word == 1 <==> exists t :: 0 <= t < |s'.at| && s'.at[t].Holding?
    ensures forall t, u :: 0 <= t < |s'.at| && 0 <= u < |s'.at| && s'.at[t].Holding? && s'.at[u].Holding? ==> t == u
  {
    InitInv(s);
    InvRun(s, run, s');
    hide Futex.Inv;
    CountZero(s'.at, Holds);
    forall t, u | 0 <= t < |s'.at| && 0 <= u < |s'.at| && s'.at[t].Holding? && s'.at[u].Holding? ensures t == u {
      if t < u { CountTwo(s'.at, Holds, t, u); }
      if u < t { CountTwo(s'.at, Holds, u, t); }
    }
  }

  /** A sleeper has somebody to wait for: a holder, or an unlocker whose wakeup has not yet come past it. */
  lemma NoLostWakeup(s: State, run: seq<Event>, s': State, t: nat)
    requires Init(s) && Run(s, run, s') && t < |s'.at| == |s'.k.pc| && s'.k.pc[t].Asleep?
    ensures || (s'.k.word == 1 && exists h :: 0 <= h < |s'.at| && s'.at[h].Holding?)
            || exists u :: 0 <= u < |s'.at| && s'.at[u].Waking? && Futex.WillWake(s'.k.pc, u, t)
  {
    InitInv(s);
    InvRun(s, run, s');
    MutualExclusion(s, run, s');
    assert Matches(s', t) && Futex.NotLost(s'.k, t);
    if s'.k.word != 1 {
      var u :| Futex.WillWake(s'.k.pc, u, t);
      assert Matches(s', u);
    }
  }

  predicate Program(e: Event) {
    !e.Lock? && !e.Stray?
  }

  /** While some thread is inside a lock or unlock call or has the lock, some thread can go on. */
  lemma NoDeadlock(s: State, run: seq<Event>, s': State, t: nat) returns (e: Event)
    requires Init(s) && Run(s, run, s') && t < |s'.at| && !s'.at[t].Out?
    ensures Enabled(s', e) && Program(e)
  {
    InitInv(s);
    InvRun(s, run, s');
    assert Matches(s', t);
    if s'.k.pc[t].User? {
      e := match s'.at[t]
        case Trying => TestAndSet(t)
        case Waiting => WaitReturn(t)
        case Holding => Unlock(t)
        case _ => WakeReturn(t);
    } else {
      var u := t;
      if s'.k.pc[t].Asleep? {
        NoLostWakeup(s, run, s', t);
        if h :| 0 <= h < |s'.at| && s'.at[h].Holding? {
          return Unlock(h);
        }
        u :| 0 <= u < |s'.at| && s'.at[u].Waking? && Futex.WillWake(s'.k.pc, u, t);
      }
      var v := Futex.Progress(s'.k, u);
      e := Kernel(v);
    }
  }

  // ----- and everybody who wants the lock can get it

  ghost predicate Programs(run: seq<Event>) {
    forall i :: 0 <= i < |run| ==> Program(run[i])
  }

  lemma {:induction false} RunJoin(s: State, run: seq<Event>, s1: State, more: seq<Event>, s2: State)
    requires Run(s, run, s1) && Run(s1, more, s2) && Programs(run) && Programs(more)
    ensures Run(s, run + more, s2) && Programs(run + more)
    decreases |run|
  {
    if run == [] {
      assert run + more == more;
    } else {
      RunJoin(Next(s, run[0]), run[1..], s1, more, s2);
      assert (run + more)[1..] == run[1..] + more;
    }
  }

  lemma {:induction false} KernelRun(s: State, ts: seq<nat>, k: Futex.Kernel) returns (run: seq<Event>)
    requires Inv(s) && Futex.Steps(s.k, ts, k)
    ensures Run(s, run, State(k, s.at)) && Programs(run)
    decreases |ts|
  {
    run := [];
    if ts != [] {
      InvNext(s, Kernel(ts[0]));
      var rest := KernelRun(s.(k := Futex.Step(s.k, ts[0])), ts[1..], k);
      run := [Kernel(ts[0])] + rest;
      assert run[1..] == rest;
    }
  }

  /** The kernel comes to rest; if the word is then 0, nobody sleeps. */
  lemma Rests(s: State) returns (run: seq<Event>, s': State)
    requires Inv(s)
    ensures Run(s, run, s') && Programs(run) && Inv(s') && s'.at == s.at && s'.k.word == s.k.word
    ensures s'.k.word == 0 ==> forall t :: 0 <= t < |s'.at| ==> s'.k.pc[t].User?
  {
    var ts, k := Futex.Settles(s.k);
    run := KernelRun(s, ts, k);
    s' := State(k, s.at);
    InvRun(s, run, s');
    hide Futex.Inv;
    if s'.k.word == 0 {
      forall t | 0 <= t < |s'.at| ensures s'.k.pc[t].User? { assert Matches(s', t); }
    }
  }

  /** The holder, if there is one, gives the lock back. */
  lemma Freed(s: State) returns (run: seq<Event>, s': State)
    requires Inv(s)
    ensures Run(s, run, s') && Programs(run) && Inv(s') && s'.k.word == 0 && |s'.at| == |s.at|
    ensures forall t :: 0 <= t < |s'.at| ==> s'.k.pc[t].User?
    ensures forall t :: 0 <= t < |s.at| && !s.at[t].Holding? ==> s'.at[t] == s.at[t]
  {
    if s.k.word == 0 {
      run, s' := Rests(s);
    } else {
      CountZero(s.at, Holds);
      var h :| 0 <= h < |s.at| && s.at[h].Holding?;
      var s1 := Next(s, Unlock(h));
      InvNext(s, Unlock(h));
      var more;
      more, s' := Rests(s1);
      run := [Unlock(h)] + more;
      assert run[1..] == more;
    }
  }

  /** From every reachable state a thread that wants the lock has a way to it. */
  lemma Obtains(s0: State, run0: seq<Event>, s: State, t: nat) returns (run: seq<Event>, s': State)
    requires Init(s0) && Run(s0, run0, s) && t < |s.at| && (s.at[t].Trying? || s.at[t].Waiting?)
    ensures Run(s, run, s') && Programs(run) && t < |s'.at| && s'.at[t].Holding?
  {
    InitInv(s0);
    InvRun(s0, run0, s);
    var first, s1 := Freed(s);
    hide Futex.Inv;
    var last := if s.at[t].Waiting? then [WaitReturn(t), TestAndSet(t)] else [TestAndSet(t)];
    var s2 := if s.at[t].Waiting? then Next(s1, WaitReturn(t)) else s1;
    s' := Next(s2, TestAndSet(t));
    assert Run(s2, [TestAndSet(t)], s') by { assert [TestAndSet(t)][1..] == []; }
    assert s.at[t].Waiting? ==> last[1..] == [TestAndSet(t)];
    RunJoin(s, first, s1, last, s');
    run := first + last;
  }

  /** And one that tries alone while the lock is free has it after the one thing it can do. */
  lemma TakesFree(s: State, t: nat, e: Event)
    requires Inv(s) && t < |s.at| && s.at[t].Trying? && s.k.word == 0 && Enabled(s, e) && e.t == t && Program(e)
    ensures Next(s, e).at[t].Holding?
  {
    assert Matches(s, t);
  }
}
