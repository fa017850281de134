/**
 The semaphores of semaphore.c: a value guarded by a spinning lock word (futex with val 0), with futex_wait and
 futex_wake on the value. Any number of threads, in any interleaving with the kernel steps of module Futex.
 */
module Semaphore {
  import opened Counting
  import Futex

  datatype At =
    | Idle
    | DownTry                // sem_down: spinning on the inner lock
    | DownIn                 // has the inner lock
    | DownTaken              // has it, has decremented the value
    | DownZero(val: int)     // has it, found the value not positive
    | DownGone(val: int)     // released it; about to call futex_wait
    | DownWait(val: int)     // in futex_wait(&value, val)
    | UpTry                  // sem_up: spinning on the inner lock
    | UpIn                   // has it
    | UpWake                 // has it, has incremented the value; in futex_wake(&value)

  /** `k.word` is the value; `ups` and `downs` count the calls that have returned. */
  datatype State = State(k: Futex.Kernel, lock: int, at: seq<At>, init: int, ups: nat, downs: nat)

  datatype Event = Down(t: nat) | Up(t: nat) | Acquire(t: nat) | Take(t: nat) | Increment(t: nat) | Release(t: nat)
                 | Wait(t: nat) | WaitReturn(t: nat) | Kernel(t: nat) | Stray(t: nat)

  predicate Enabled(s: State, e: Event) {
    && e.t < |s.at| == |s.k.pc|
    && match e
       case Down(t) => s.at[t].Idle?
       case Up(t) => s.at[t].Idle?
       case Acquire(t) => (s.at[t].DownTry? || s.at[t].UpTry?) && s.lock == 0
       case Take(t) => s.at[t].DownIn?
       case Increment(t) => s.at[t].UpIn?
       case Release(t) => s.at[t].DownTaken? || s.at[t].DownZero? || (s.at[t].UpWake? && s.k.pc[t].User?)
       case Wait(t) => s.at[t].DownGone?
       case WaitReturn(t) => s.at[t].DownWait? && s.k.pc[t].User?
       case Kernel(t) => Futex.CanStep(s.k, t)
       case Stray(t) => Futex.CanStray(s.k, t)
  }

  function Next(s: State, e: Event): (r: State)
    requires Enabled(s, e)
  {
    match e
    case Down(t) => s.(at := s.at[t := DownTry])
    case Up(t) => s.(at := s.at[t := UpTry])
    case Acquire(t) => s.(lock := 1, at := s.at[t := if s.at[t].DownTry? then DownIn else UpIn])
    case Take(t) =>
      if s.k.word > 0 then s.(k := Futex.Enter(s.k, t, s.k.word - 1, Futex.User), at := s.at[t := DownTaken])
      else s.(at := s.at[t := DownZero(s.k.word)])
    case Increment(t) => s.(k := Futex.Enter(s.k, t, s.k.word + 1, Futex.WakeEnter), at := s.at[t := UpWake])
    case Release(t) => Released(s, t)
    case Wait(t) =>
      s.(k := Futex.Enter(s.k, t, s.k.word, Futex.WaitEnter(s.at[t].val)), at := s.at[t := DownWait(s.at[t].val)])
    case WaitReturn(t) => s.(at := s.at[t := DownTry])
    case Kernel(t) => s.(k := Futex.Step(s.k, t))
    case Stray(t) => s.(k := Futex.Stray(s.k, t))
  }

  function Released(s: State, t: nat): (r: State)
    requires Enabled(s, Release(t))
  {
    match s.at[t]
    case DownTaken => s.(lock := 0, at := s.at[t := Idle], downs := s.downs + 1)
    case DownZero(v) => s.(lock := 0, at := s.at[t := DownGone(v)])
    case _ => s.(lock := 0, at := s.at[t := Idle], ups := s.ups + 1)
  }

  ghost predicate Init(s: State) {
    && |s.at| == |s.k.pc| && Futex.Init(s.k, s.init) && s.lock == 0 && s.ups == 0 && s.downs == 0
    && (forall t :: 0 <= t < |s.at| ==> s.at[t].Idle?)
  }

  ghost predicate Run(s: State, run: seq<Event>, s': State)
    decreases |run|
  {
    if run == [] then s' == s else Enabled(s, run[0]) && Run(Next(s, run[0]), run[1..], s')
  }

  // ----- the invariant

  ghost predicate Matches(s: State, t: nat) {
    t < |s.at| == |s.k.pc| ==>
      match s.at[t]
      case DownWait(v) => v <= 0 && Futex.InWait(s.k.pc[t], v)
      case DownZero(v) => v <= 0 && s.k.pc[t].User?
      case DownGone(v) => v <= 0 && s.k.pc[t].User?
      case UpWake => Futex.InWake(s.k.pc[t])
      case _ => s.k.pc[t].User?
  }

  ghost predicate HasLock(at: At) {
    at.DownIn? || at.DownTaken? || at.DownZero? || at.UpIn? || at.UpWake?
  }

  ghost predicate Taken(at: At) {
    at.DownTaken?
  }

  ghost predicate Raised(at: At) {
    at.UpWake?
  }

  ghost predicate Inv(s: State) {
    && |s.at| == |s.k.pc| && Futex.Inv(s.k)
    && (forall t :: Matches(s, t))
    && Counted(s)
  }

  ghost predicate Counted(s: State) {
    && s.lock <= 1 && Count(s.at, HasLock) == s.lock
    && s.k.word == s.init + s.ups + Count(s.at, Raised) - s.downs - Count(s.at, Taken)
    && (s.k.word >= 0 || s.k.word >= s.init)
  }

  lemma InitInv(s: State)
    requires Init(s)
    ensures Inv(s)
  {
    Futex.InitInv(s.k, s.init);
    CountZero(s.at, HasLock);
    CountZero(s.at, Taken);
    CountZero(s.at, Raised);
  }

  lemma MatchesNext(s: State, e: Event)
    requires Inv(s) && Enabled(s, e)
    ensures forall t :: Matches(Next(s, e), t)
  {
    hide Futex.Inv;
    forall t ensures Matches(Next(s, e), t) {
      assert Matches(s, t) && Matches(s, e.t);
    }
  }

  lemma KernelNext(s: State, e: Event)
    requires Inv(s) && Enabled(s, e)
    ensures Futex.Inv(Next(s, e).k)
  {
    hide Futex.Inv;
    assert Matches(s, e.t);
    match e
    case Take(t) =>
      if s.k.word > 0 {
        forall w | 0 <= w < |s.k.pc| && Futex.Waits(s.k.pc[w]) ensures s.k.pc[w].val <= 0 { assert Matches(s, w); }
        Futex.QuietInv(s.k, t, s.k.word - 1, Futex.User);
      }
    case Increment(t) => Futex.WakeInv(s.k, t, s.k.word + 1);
    case Wait(t) => Futex.QuietInv(s.k, t, s.k.word, Futex.WaitEnter(s.at[t].val));
    case Kernel(t) => Futex.StepInv(s.k, t);
    case Stray(t) => Futex.StrayInv(s.k, t);
    case _ =>
  }

  lemma CountedNext(s: State, e: Event)
    requires Counted(s) && Enabled(s, e)
    ensures Counted(Next(s, e))
  {
    hide Count;
    if !e.Kernel? && !e.Stray? {
      CountUpdate(s.at, HasLock, e.t, Next(s, e).at[e.t]);
      CountUpdate(s.at, Taken, e.t, Next(s, e).at[e.t]);
      CountUpdate(s.at, Raised, e.t, Next(s, e).at[e.t]);
      if HasLock(s.at[e.t]) { CountPositive(s.at, HasLock, e.t); }
    }
  }

  lemma InvNext(s: State, e: Event)
    requires Inv(s) && Enabled(s, e)
    ensures Inv(Next(s, e))
  {
    MatchesNext(s, e);
    KernelNext(s, e);
    CountedNext(s, e);
    hide Futex.Inv, Counted, Matches;
  }

  lemma {:induction false} InvRun(s: State, run: seq<Event>, s': State)
    requires Inv(s) && Run(s, run, s')
    ensures Inv(s') && s'.init == s.init
    decreases |run|
  {
    if run != [] {
      InvNext(s, run[0]);
      InvRun(Next(s, run[0]), run[1..], s');
    }
  }

  lemma NoneOf(at: seq<At>)
    requires Count(at, HasLock) == 0
    ensures Count(at, Taken) == 0 && Count(at, Raised) == 0
  {
    CountZero(at, HasLock);
    CountZero(at, Taken);
    CountZero(at, Raised);
  }

  // ----- what holds in every reachable state

  /** Whenever the inner lock is free the value is the initial one plus the ups minus the downs. */
  lemma Conservation(s: State, run: seq<Event>, s': State)
    requires Init(s) && Run(s, run, s')
    ensures s'.lock == 0 ==> s'.k.word == s.init + s'.ups - s'.downs
    ensures s.init >= 0 ==> s'.k.word >= 0
  {
    InitInv(s);
    InvRun(s, run, s');
    hide Futex.Inv;
    if s'.lock == 0 { NoneOf(s'.at); }
  }

  /** A sleeper has reason to sleep (0, if the initial value was not negative), or its waker is on the way. */
  lemma NoLostWakeup(s: State, run: seq<Event>, s': State, t: nat)
    requires Init(s) && Run(s, run, s') && t < |s'.at| == |s'.k.pc| && s'.k.pc[t].Asleep?
    ensures s'.k.word <= 0 || WakerFor(s', t)
  {
    InitInv(s);
    InvRun(s, run, s');
    SleeperInv(s', t);
  }

  ghost predicate WakerFor(s: State, t: nat) {
    exists u :: 0 <= u < |s.at| && s.at[u].UpWake? && Futex.WillWake(s.k.pc, u, t)
  }

  lemma SleeperInv(s: State, t: nat)
    requires Inv(s) && t < |s.at| && s.k.pc[t].Asleep?
    ensures s.k.word <= 0 || WakerFor(s, t)
  {
    assert Matches(s, t) && Futex.NotLost(s.k, t);
    if s.k.word > 0 {
      var u :| Futex.WillWake(s.k.pc, u, t);
      assert Matches(s, u);
    }
  }

  predicate Program(e: Event) {
    !e.Down? && !e.Up? && !e.Stray?
  }

  /** The only way for a pending call not to let any thread go on: the value is spent, and it sleeps on it. */
  predicate Blocked(s: State, t: nat) {
    t < |s.at| == |s.k.pc| && s.k.word <= 0 && s.k.pc[t].Asleep?
  }

  /** The thread that has the inner lock can go on, or the kernel can. */
  lemma HolderGoes(s: State) returns (e: Event)
    requires Inv(s) && s.lock != 0
    ensures Enabled(s, e) && Program(e)
  {
    CountZero(s.at, HasLock);
    var h :| 0 <= h < |s.at| && HasLock(s.at[h]);
    assert Matches(s, h);
    e := if s.at[h].DownIn? then Take(h) else if s.at[h].UpIn? then Increment(h) else Release(h);
    if s.at[h].UpWake? && !s.k.pc[h].User? {
      var v := Futex.Progress(s.k, h);
      e := Kernel(v);
    }
  }

  lemma NoDeadlock(s: State, run: seq<Event>, s': State, t: nat) returns (e: Event)
    requires Init(s) && Run(s, run, s') && t < |s'.at| && !s'.at[t].Idle? && !Blocked(s', t)
    ensures Enabled(s', e) && Program(e)
  {
    InitInv(s);
    InvRun(s, run, s');
    e := GoesOn(s', t);
  }

  lemma GoesOn(s: State, t: nat) returns (e: Event)
    requires Inv(s) && t < |s.at| && !s.at[t].Idle? && !Blocked(s, t)
    ensures Enabled(s, e) && Program(e)
  {
    assert Matches(s, t);
    if s.lock != 0 {
      e := HolderGoes(s);
    } else if s.k.pc[t].User? {
      NoneOf(s.at);
      CountZero(s.at, HasLock);
      e := if s.at[t].DownGone? then Wait(t) else if s.at[t].DownWait? then WaitReturn(t) else Acquire(t);
    } else {
      var u := t;
      if s.k.pc[t].Asleep? {
        SleeperInv(s, t);
        u :| 0 <= u < |s.at| && s.at[u].UpWake? && Futex.WillWake(s.k.pc, u, t);
      }
      var v := Futex.Progress(s.k, u);
      e := Kernel(v);
    }
  }

  // ----- and calls return

  ghost predicate Programs(run: seq<Event>) {
    forall i :: 0 <= i < |run| ==> Program(run[i])
  }

  lemma {:induction false} RunJoin(s: State, run: seq<Event>, s1: State, more: seq<Event>, s2: State)
    requires Run(s, run, s1) && Run(s1, more, s2) && Programs(run) && Programs(more)
    ensures Run(s, run + more, s2) && Programs(run + more)
    decreases |run|
  {
    if run == [] {
      assert run + more == more;
    } else {
      RunJoin(Next(s, run[0]), run[1..], s1, more, s2);
      assert (run + more)[1..] == run[1..] + more;
    }
  }

  lemma RunFirst(s: State, e: Event, more: seq<Event>, s': State)
    requires Enabled(s, e) && Program(e) && Run(Next(s, e), more, s') && Programs(more)
    ensures Run(s, [e] + more, s') && Programs([e] + more)
  {
    assert ([e] + more)[1..] == more;
  }

  lemma {:induction false} KernelRun(s: State, ts: seq<nat>, k: Futex.Kernel) returns (run: seq<Event>)
    requires Inv(s) && Futex.Steps(s.k, ts, k)
    ensures Run(s, run, s.(k := k)) && Programs(run)
    decreases |ts|
  {
    run := [];
    if ts != [] {
      InvNext(s, Kernel(ts[0]));
      var rest := KernelRun(s.(k := Futex.Step(s.k, ts[0])), ts[1..], k);
      RunFirst(s, Kernel(ts[0]), rest, s.(k := k));
      run := [Kernel(ts[0])] + rest;
    }
  }

  /** The kernel is at rest: only those sleep for whom there is nothing. */
  ghost predicate AtRest(s: State) {
    && Inv(s)
    && forall t :: 0 <= t < |s.at| == |s.k.pc| && (s.k.word > 0 || !s.at[t].DownWait?) ==> s.k.pc[t].User?
  }

  /** A run of the program's own steps from `s` to rest at `s'`. */
  ghost predicate Reaches(s: State, run: seq<Event>, s': State) {
    Run(s, run, s') && Programs(run) && AtRest(s')
  }

  lemma Rests(s: State) returns (run: seq<Event>, s': State)
    requires Inv(s)
    ensures Reaches(s, run, s') && s' == s.(k := s'.k) && s'.k.word == s.k.word
  {
    var ts, k := Futex.Settles(s.k);
    run := KernelRun(s, ts, k);
    s' := s.(k := k);
    InvRun(s, run, s');
    hide Futex.Inv;
    forall t | 0 <= t < |s'.at| && (s'.k.word > 0 || !s'.at[t].DownWait?) ensures s'.k.pc[t].User? {
      assert Matches(s', t);
    }
  }

  /** One more step of a thread's own, and rest again. */
  lemma Extend(s: State, run: seq<Event>, s1: State, e: Event) returns (run': seq<Event>, s': State)
    requires Reaches(s, run, s1) && Enabled(s1, e) && Program(e)
    ensures Reaches(s, run', s') && s' == Next(s1, e).(k := s'.k) && s'.k.word == Next(s1, e).k.word
  {
    hide Inv, Enabled, Next, Program;
    InvNext(s1, e);
    var more;
    more, s' := Rests(Next(s1, e));
    RunFirst(s1, e, more, s');
    RunJoin(s, run, s1, [e] + more, s');
    run' := run + ([e] + more);
  }

  lemma ReadyAt(s: State, run: seq<Event>, s': State, t: nat)
    requires Reaches(s, run, s') && t < |s'.at|
    ensures |s'.at| == |s'.k.pc| && (s'.k.word > 0 || !s'.at[t].DownWait? ==> s'.k.pc[t].User?)
  {
    hide Futex.Inv, Counted, Matches;
  }

  /** The value once a thread at `at` is done with the inner lock. */
  function Leaves(at: At, word: int): (v: int) {
    if at.UpIn? then word + 1 else if at.DownIn? && word > 0 then word - 1 else word
  }

  /** The thread that has the inner lock does its work and releases it. */
  lemma HolderDone(s: State, run: seq<Event>, s1: State, h: nat) returns (run': seq<Event>, s': State)
    requires Reaches(s, run, s1) && h < |s1.at| && HasLock(s1.at[h])
    ensures Reaches(s, run', s') && s'.lock == 0 && s'.k.word == Leaves(s1.at[h], s1.k.word)
    ensures |s'.at| == |s1.at| && s'.at == s1.at[h := s'.at[h]] && (s'.at[h].Idle? || s'.at[h].DownGone?)
    ensures s1.at[h].DownZero? || (s1.at[h].DownIn? && s1.k.word <= 0) ==> s'.at[h].DownGone?
    ensures s1.at[h].DownTaken? || s1.at[h].UpIn? || s1.at[h].UpWake? ==> s'.at[h].Idle?
    ensures s1.at[h].UpIn? || s1.at[h].UpWake? ==> s'.ups == s1.ups + 1
    ensures s1.at[h].DownIn? && s1.k.word > 0 ==> s'.at[h].Idle? && s'.downs == s1.downs + 1
    ensures s'.ups >= s1.ups && s'.downs >= s1.downs && (s1.at[h].UpIn? ==> s'.downs == s1.downs)
  {
    hide Reaches;
    run', s' := run, s1;
    ReadyAt(s, run', s', h);
    if s1.at[h].DownIn? {
      run', s' := Extend(s, run', s', Take(h));
      ReadyAt(s, run', s', h);
    } else if s1.at[h].UpIn? {
      run', s' := Extend(s, run', s', Increment(h));
      ReadyAt(s, run', s', h);
    }
    run', s' := Extend(s, run', s', Release(h));
  }

  /** From rest with the inner lock free, sem_up runs through. */
  lemma Gives(s: State, run: seq<Event>, s1: State, t: nat) returns (run': seq<Event>, s': State)
    requires Reaches(s, run, s1) && t < |s1.at| && s1.at[t].UpTry? && s1.lock == 0
    ensures Reaches(s, run', s') && |s'.at| == |s1.at| && s'.at[t].Idle? && s'.ups == s1.ups + 1
    ensures s'.at == s1.at[t := Idle] && s'.lock == 0 && s'.k.word == s1.k.word + 1 && s'.downs == s1.downs
  {
    hide Reaches;
    ReadyAt(s, run, s1, t);
    run', s' := Extend(s, run, s1, Acquire(t));
    run', s' := HolderDone(s, run', s', t);
  }

  /** And sem_down, if the value is positive. */
  lemma Takes(s: State, run: seq<Event>, s1: State, t: nat) returns (run': seq<Event>, s': State)
    requires Reaches(s, run, s1) && t < |s1.at| && s1.lock == 0 && s1.k.word > 0
    requires s1.at[t].DownTry? || s1.at[t].DownGone? || s1.at[t].DownWait?
    ensures Reaches(s, run', s') && |s'.at| == |s1.at| && s'.at[t].Idle? && s'.downs == s1.downs + 1
  {
    hide Reaches;
    run', s' := run, s1;
    ReadyAt(s, run', s', t);
    if s'.at[t].DownGone? {
      run', s' := Extend(s, run', s', Wait(t));
      ReadyAt(s, run', s', t);
    }
    if s'.at[t].DownWait? {
      run', s' := Extend(s, run', s', WaitReturn(t));
      ReadyAt(s, run', s', t);
    }
    run', s' := Extend(s, run', s', Acquire(t));
    run', s' := HolderDone(s, run', s', t);
  }

  lemma Held(s: State) returns (h: nat)
    requires Inv(s) && s.lock != 0
    ensures h < |s.at| && HasLock(s.at[h]) && forall t :: 0 <= t < |s.at| && HasLock(s.at[t]) ==> t == h
  {
    CountZero(s.at, HasLock);
    h :| 0 <= h < |s.at| && HasLock(s.at[h]);
    OneHolder(s, h);
  }

  lemma NotHeld(s: State, t: nat)
    requires Inv(s) && t < |s.at| && HasLock(s.at[t])
    ensures s.lock != 0
  {
    OneHolder(s, t);
  }

  /** A call of sem_up can always return. */
  lemma UpReturns(s0: State, run0: seq<Event>, s: State, t: nat) returns (run: seq<Event>, s': State)
    requires Init(s0) && Run(s0, run0, s) && t < |s.at| && (s.at[t].UpTry? || s.at[t].UpIn? || s.at[t].UpWake?)
    ensures Run(s, run, s') && Programs(run) && t < |s'.at| && s'.at[t].Idle? && s'.ups > s.ups
  {
    InitInv(s0);
    InvRun(s0, run0, s);
    hide Inv, Run, Programs, AtRest;
    if HasLock(s.at[t]) { NotHeld(s, t); }
    run, s' := Rests(s);
    if s.lock != 0 {
      var h := Held(s);
      run, s' := HolderDone(s, run, s', h);
    }
    if s.at[t].UpTry? { run, s' := Gives(s, run, s', t); }
  }

  /** A call of sem_down is on its way and has not taken anything yet. */
  predicate Asking(at: At) {
    at.DownTry? || at.DownIn? || at.DownZero? || at.DownGone? || at.DownWait?
  }

  /** In a call of sem_up that has yet to raise the value. */
  ghost predicate Pending(at: At) { at.UpTry? || at.UpIn? }

  ghost predicate TakerBefore(s: State, t: nat) {
    s.k.word > 0 && exists h :: 0 <= h < |s.at| && h != t && s.at[h].DownIn?
  }

  /**
   Nothing is left for the call of sem_down of `t`: of the value, raised by all the calls of sem_up under way, the
   thread that has the inner lock takes the last.
   */
  ghost predicate Stuck(s: State, t: nat) {
    && t < |s.at| && Asking(s.at[t])
    && s.k.word + Count(s.at, Pending) <= if TakerBefore(s, t) then 1 else 0
  }

  /** From rest with the inner lock free, as many calls of sem_up run through as the value takes to be positive. */
  lemma {:induction false} Raises(s: State, run: seq<Event>, s1: State, t: nat) returns (run': seq<Event>, s': State)
    requires Reaches(s, run, s1) && t < |s1.at| && s1.lock == 0 && Asking(s1.at[t])
    requires s1.k.word + Count(s1.at, Pending) > 0
    ensures Reaches(s, run', s') && s'.lock == 0 && s'.k.word > 0
    ensures |s'.at| == |s1.at| && s'.at[t] == s1.at[t] && s'.downs == s1.downs
    decreases Count(s1.at, Pending)
  {
    run', s' := run, s1;
    if s1.k.word <= 0 {
      CountZero(s1.at, Pending);
      var u :| 0 <= u < |s1.at| && Pending(s1.at[u]);
      NoHolder(s1);
      hide Reaches, AtRest, Inv;
      run', s' := Gives(s, run, s1, u);
      CountUpdate(s1.at, Pending, u, Idle);
      run', s' := Raises(s, run', s', t);
    }
  }

  lemma LeftAfter(s: State, h: nat, t: nat, at: At, word: int)
    requires Inv(s) && h < |s.at| && HasLock(s.at[h]) && t < |s.at| && Asking(s.at[t]) && !Stuck(s, t)
    requires word == Leaves(s.at[h], s.k.word) && (at.Idle? || at.DownGone?)
    ensures (h == t && s.at[t].DownIn? && s.k.word > 0) || word + Count(s.at[h := at], Pending) > 0
  {
    OneHolder(s, h);
    hide Inv, Count;
    CountUpdate(s.at, Pending, h, at);
  }

  /** The thread with the inner lock done, the call has returned or there is something for it. */
  lemma HolderFirst(s: State, t: nat) returns (run: seq<Event>, s': State)
    requires Inv(s) && t < |s.at| && Asking(s.at[t]) && !Stuck(s, t)
    ensures Reaches(s, run, s') && |s'.at| == |s.at| && s'.lock == 0
    ensures (s'.at[t].Idle? && s'.downs > s.downs)
            || (s'.downs >= s.downs && Asking(s'.at[t]) && s'.k.word + Count(s'.at, Pending) > 0)
  {
    hide Count, Reaches, Stuck, Leaves;
    run, s' := Rests(s);
    if s.lock != 0 {
      var h := Held(s);
      hide Inv;
      run, s' := HolderDone(s, run, s', h);
      LeftAfter(s, h, t, s'.at[h], s'.k.word);
    } else {
      NoHolder(s);
      hide Inv;
      NotStuck(s, t);
    }
  }

  lemma NotStuck(s: State, t: nat)
    requires t < |s.at| && Asking(s.at[t]) && !Stuck(s, t) && forall h :: 0 <= h < |s.at| ==> !HasLock(s.at[h])
    ensures s.k.word + Count(s.at, Pending) > 0
  {
  }

  /** A call of sem_down can return unless nothing is left for it. */
  lemma DownReturns(s0: State, run0: seq<Event>, s: State, t: nat) returns (run: seq<Event>, s': State)
    requires Init(s0) && Run(s0, run0, s) && t < |s.at| && Asking(s.at[t]) && !Stuck(s, t)
    ensures Run(s, run, s') && Programs(run) && t < |s'.at| && s'.at[t].Idle? && s'.downs > s.downs
  {
    hide Inv, Run, Programs, AtRest, Count, Stuck;
    InitInv(s0);
    InvRun(s0, run0, s);
    run, s' := HolderFirst(s, t);
    if s'.at[t].Idle? { return; }
    Unlocked(s, run, s', t);
    run, s' := Raises(s, run, s', t);
    run, s' := Takes(s, run, s', t);
  }

  lemma Unlocked(s: State, run: seq<Event>, s': State, t: nat)
    requires Reaches(s, run, s') && s'.lock == 0 && t < |s'.at| && Asking(s'.at[t])
    ensures s'.at[t].DownTry? || s'.at[t].DownGone? || s'.at[t].DownWait?
  {
    NoHolder(s');
  }

  lemma NoHolder(s: State)
    requires Inv(s) && s.lock == 0
    ensures forall h :: 0 <= h < |s.at| ==> !HasLock(s.at[h])
  {
    CountZero(s.at, HasLock);
  }

  lemma StuckNext(s: State, t: nat, e: Event)
    requires Inv(s) && Stuck(s, t) && Enabled(s, e) && Program(e)
    ensures Stuck(Next(s, e), t)
  {
    hide Inv, Count, Futex.Step, Futex.CanStep;
    if s.lock != 0 {
      var h := Held(s);
    } else {
      NoHolder(s);
    }
    if e.Kernel? { Futex.StepWord(s.k, e.t); }
    if !e.Kernel? { CountUpdate(s.at, Pending, e.t, Next(s, e).at[e.t]); }
    if TakerBefore(s, t) && !e.Take? {
      var h :| 0 <= h < |s.at| && h != t && s.at[h].DownIn?;
      assert Next(s, e).at[h].DownIn?;
    }
  }

  lemma {:induction false} StuckRun(s: State, run: seq<Event>, s': State, t: nat)
    requires Inv(s) && Stuck(s, t) && Run(s, run, s') && Programs(run)
    ensures Stuck(s', t)
    decreases |run|
  {
    if run != [] {
      hide Inv, Next, Enabled, Stuck;
      assert Program(run[0]);
      StuckNext(s, t, run[0]);
      InvNext(s, run[0]);
      StuckRun(Next(s, run[0]), run[1..], s', t);
    }
  }

  /** Exactly when a sem_down under way can return without another call being made. */
  lemma DownExactly(s0: State, run0: seq<Event>, s: State, t: nat)
    requires Init(s0) && Run(s0, run0, s) && t < |s.at| && Asking(s.at[t])
    ensures (exists run, s' :: Run(s, run, s') && Programs(run) && t < |s'.at| && s'.at[t].Idle?) <==> !Stuck(s, t)
  {
    InitInv(s0);
    InvRun(s0, run0, s);
    hide Inv, Run, Programs;
    if Stuck(s, t) {
      forall run, s' | Run(s, run, s') && Programs(run) ensures !(t < |s'.at| && s'.at[t].Idle?) {
        StuckRun(s, run, s', t);
      }
    } else {
      var run, s' := DownReturns(s0, run0, s, t);
    }
  }

  lemma OneHolder(s: State, h: nat)
    requires Inv(s) && h < |s.at| && HasLock(s.at[h])
    ensures s.lock == 1 && forall t :: 0 <= t < |s.at| && HasLock(s.at[t]) ==> t == h
  {
    CountPositive(s.at, HasLock, h);
    forall t | 0 <= t < |s.at| && HasLock(s.at[t]) ensures t == h {
      if t < h { CountTwo(s.at, HasLock, t, h); }
      if h < t { CountTwo(s.at, HasLock, h, t); }
    }
  }

  // ----- the abstract semaphore

  datatype Op = P(t: nat) | V(t: nat)

  function Effect(s: State, e: Event): (ops: seq<Op>) {
    if e.Take? && s.k.word > 0 then [P(e.t)] else if e.Increment? then [V(e.t)] else []
  }

  ghost function Trace(s: State, run: seq<Event>, s': State): (ops: seq<Op>)
    requires Run(s, run, s')
    decreases |run|
  {
    if run == [] then [] else Effect(s, run[0]) + Trace(Next(s, run[0]), run[1..], s')
  }

  /** One atomic counter: P waits for a positive value and takes one, V gives one. */
  ghost predicate Atomic(v: int, ops: seq<Op>, v': int)
    decreases |ops|
  {
    if ops == [] then v' == v
    else if ops[0].P? then v > 0 && Atomic(v - 1, ops[1..], v')
    else Atomic(v + 1, ops[1..], v')
  }

  lemma AtomicNone(v: int)
    ensures Atomic(v, [], v)
  {
  }

  /** How often thread `t` took one in `ops`, or with `p` false gave one. */
  ghost function Times(ops: seq<Op>, t: nat, p: bool): (n: nat) {
    if ops == [] then 0 else Times(ops[1..], t, p) + if ops[0].t == t && ops[0].P? == p then 1 else 0
  }

  /** The calls of `t` that return in `run`, downs or with `p` false ups. */
  ghost function Returns(s: State, run: seq<Event>, s': State, t: nat, p: bool): (n: nat)
    requires Run(s, run, s')
    decreases |run|
  {
    if run == [] then 0
    else (if run[0] == Release(t) && (if p then s.at[t].DownTaken? else s.at[t].UpWake?) then 1 else 0)
         + Returns(Next(s, run[0]), run[1..], s', t, p)
  }

  predicate InEffect(s: State, t: nat, p: bool) {
    t < |s.at| && if p then s.at[t].DownTaken? else s.at[t].UpWake?
  }

  /** Every run is a run of the atomic counter. */
  lemma {:induction false} RefinesAtomic(s: State, run: seq<Event>, s': State)
    requires Run(s, run, s')
    ensures Atomic(s.k.word, Trace(s, run, s'), s'.k.word)
    decreases |run|
  {
    if run != [] {
      var e, n := run[0], Next(s, run[0]);
      RefinesAtomic(n, run[1..], s');
      var rest := Trace(n, run[1..], s');
      assert (Effect(s, e) + rest)[|Effect(s, e)|..] == rest;
      assert Effect(s, e) == [] ==> Effect(s, e) + rest == rest;
    }
  }

  /** And in it each returned call has had its effect exactly once. */
  lemma {:induction false} OnceEach(s: State, run: seq<Event>, s': State, t: nat, p: bool)
    requires Run(s, run, s')
    ensures Times(Trace(s, run, s'), t, p) + (if InEffect(s, t, p) then 1 else 0)
         == Returns(s, run, s', t, p) + if InEffect(s', t, p) then 1 else 0
    decreases |run|
  {
    if run != [] {
      var e, n := run[0], Next(s, run[0]);
      OnceEach(n, run[1..], s', t, p);
      var rest := Trace(n, run[1..], s');
      assert (Effect(s, e) + rest)[|Effect(s, e)|..] == rest;
      assert Effect(s, e) == [] ==> Effect(s, e) + rest == rest;
    }
  }

  // ----- the value as an int

  const WRAP: int := 0x1_0000_0000

  predicate IsInt(v: int) {
    -0x8000_0000 <= v < 0x8000_0000
  }

  function IntOf(v: int): (r: int)
    ensures IsInt(r) && (r - v) % WRAP == 0
  {
    (v + 0x8000_0000) % WRAP - 0x8000_0000
  }

  /** The same step on an int: only the increment can leave the range. */
  function NextInt(s: State, e: Event): (r: State)
    requires Enabled(s, e)
  {
    if e.Increment? then
      s.(k := Futex.Enter(s.k, e.t, IntOf(s.k.word + 1), Futex.WakeEnter), at := s.at[e.t := UpWake])
    else Next(s, e)
  }

  ghost predicate RunInt(s: State, run: seq<Event>, s': State)
    decreases |run|
  {
    if run == [] then s' == s else Enabled(s, run[0]) && RunInt(NextInt(s, run[0]), run[1..], s')
  }

  /** The inner lock is held by one thread, and the value is right modulo 2^32. */
  ghost predicate CountedInt(s: State) {
    && s.lock <= 1 && Count(s.at, HasLock) == s.lock && IsInt(s.k.word)
    && (s.init + s.ups + Count(s.at, Raised) - s.downs - Count(s.at, Taken) - s.k.word) % WRAP == 0
  }

  lemma CountedIntNext(s: State, e: Event)
    requires CountedInt(s) && Enabled(s, e)
    ensures CountedInt(NextInt(s, e))
  {
    hide Count, IntOf;
    if !e.Kernel? && !e.Stray? {
      var next := NextInt(s, e).at[e.t];
      CountUpdate(s.at, HasLock, e.t, next);
      CountUpdate(s.at, Taken, e.t, next);
      CountUpdate(s.at, Raised, e.t, next);
      if HasLock(s.at[e.t]) { CountPositive(s.at, HasLock, e.t); }
    }
  }

  lemma {:induction false} CountedIntRun(s: State, run: seq<Event>, s': State)
    requires CountedInt(s) && RunInt(s, run, s')
    ensures CountedInt(s') && s'.init == s.init
    decreases |run|
  {
    if run != [] {
      CountedIntNext(s, run[0]);
      CountedIntRun(NextInt(s, run[0]), run[1..], s');
    }
  }

  /** An int agrees with the initial value plus the ups minus the downs exactly as long as that is one. */
  lemma ConservationInt(s: State, run: seq<Event>, s': State)
    requires Init(s) && IsInt(s.init) && RunInt(s, run, s') && s'.lock == 0
    ensures s'.k.word == IntOf(s.init + s'.ups - s'.downs)
    ensures s'.k.word == s.init + s'.ups - s'.downs <==> IsInt(s.init + s'.ups - s'.downs)
  {
    CountZero(s.at, HasLock);
    CountZero(s.at, Taken);
    CountZero(s.at, Raised);
    CountedIntRun(s, run, s');
    NoneOf(s'.at);
  }

  /** Until an increment at 2^31 - 1 the steps are those of the unbounded value, and what is proved of it holds. */
  lemma {:induction false} IntRuns(s: State, run: seq<Event>, s': State)
    requires IsInt(s.k.word) && RunInt(s, run, s') && NoOverflow(s, run, s')
    ensures Run(s, run, s')
    decreases |run|
  {
    if run != [] { IntRuns(NextInt(s, run[0]), run[1..], s'); }
  }

  ghost predicate NoOverflow(s: State, run: seq<Event>, s': State)
    requires RunInt(s, run, s')
    decreases |run|
  {
    run != [] ==> && !(run[0].Increment? && s.k.word == 0x7fff_ffff)
                  && NoOverflow(NextInt(s, run[0]), run[1..], s')
  }

  /** That increment makes the value -2^31. */
  lemma IntStep(s: State, e: Event)
    requires Enabled(s, e) && IsInt(s.k.word)
    ensures NextInt(s, e) == Next(s, e) <==> !(e.Increment? && s.k.word == 0x7fff_ffff)
    ensures e.Increment? && s.k.word == 0x7fff_ffff ==> NextInt(s, e).k.word == -0x8000_0000
  {
  }
}
