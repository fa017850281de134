/**
 Programs over the semaphores of semaphore.c, not over atomic counters: each thread makes its calls step by step, in
 any interleaving with the kernel. What holds of a program whose semaphores are atomic holds of it here.
 */
module SemaphoreClient {
  import S = Semaphore

  /** What a thread does next: a call on a semaphore, or a step of its own. */
  datatype Want<X> = Down(x: X) | Up(x: X) | Local

  /**
   A program: its semaphores, its threads, what each thread wants, the state once thread `t` has done that (`arg` is
   a choice left to it), the values its state gives the semaphores, and its invariant.
   */
  datatype Client<!C, !X> = Client(sems: set<X>, threads: nat, wants: (C, nat) -> Want<X>, next: (C, nat, int) -> C,
                                   value: (C, X) -> int, inv: C -> bool)

  function Change<X(==)>(w: Want<X>, x: X): (d: int) {
    if w == Down(x) then -1 else if w == Up(x) then 1 else 0
  }

  // ----- with atomic semaphores

  predicate CanGo<C, X(==)>(cl: Client<C, X>, c: C, t: nat) {
    t < cl.threads && (cl.wants(c, t).Down? ==> cl.value(c, cl.wants(c, t).x) > 0)
  }

  ghost predicate AtomicRun<C(!new), X(!new)>(cl: Client<C, X>, c: C, steps: seq<(nat, int)>, c': C)
    decreases |steps|
  {
    if steps == [] then c' == c
    else CanGo(cl, c, steps[0].0) && AtomicRun(cl, cl.next(c, steps[0].0, steps[0].1), steps[1..], c')
  }

  /** A step moves its own thread only, and changes the value of its semaphore only. */
  ghost predicate StepOk<C(!new), X(!new)>(cl: Client<C, X>, c: C, t: nat, arg: int) {
    cl.inv(c) && CanGo(cl, c, t) ==>
      var c' := cl.next(c, t, arg);
      && cl.inv(c')
      && (forall u: nat :: u < cl.threads && u != t ==> cl.wants(c', u) == cl.wants(c, u))
      && (forall x :: x in cl.sems ==> cl.value(c', x) == cl.value(c, x) + Change(cl.wants(c, t), x))
  }

  ghost predicate Sound<C(!new), X(!new)>(cl: Client<C, X>) {
    && (forall c, t: nat :: cl.inv(c) && t < cl.threads && !cl.wants(c, t).Local? ==> cl.wants(c, t).x in cl.sems)
    && (forall c, t: nat, arg :: StepOk(cl, c, t, arg))
  }

  // ----- with the semaphores of the library

  datatype State<C, X> = State(c: C, sems: map<X, S.State>)

  datatype Event<X> = Act(t: nat, arg: int) | Call(t: nat) | Inner(x: X, e: S.Event)

  /** The thread is in no call. */
  ghost predicate Quiet<C(!new), X(!new)>(s: State<C, X>, t: nat) {
    forall x :: x in s.sems ==> t < |s.sems[x].at| && s.sems[x].at[t].Idle?
  }

  ghost predicate Enabled<C(!new), X(!new)>(cl: Client<C, X>, s: State<C, X>, e: Event<X>) {
    match e
    case Act(t, _) => t < cl.threads && Quiet(s, t) && cl.wants(s.c, t).Local?
    case Call(t) => && t < cl.threads && Quiet(s, t) && !cl.wants(s.c, t).Local? && cl.wants(s.c, t).x in s.sems
                    && S.Enabled(s.sems[cl.wants(s.c, t).x], Begin(cl.wants(s.c, t), t))
    case Inner(x, e) => x in s.sems && !e.Down? && !e.Up? && S.Enabled(s.sems[x], e)
  }

  function Begin<X>(w: Want<X>, t: nat): (e: S.Event) {
    if w.Down? then S.Down(t) else S.Up(t)
  }

  /** The program moves on where the call takes effect. */
  ghost function Next<C(!new), X(!new)>(cl: Client<C, X>, s: State<C, X>, e: Event<X>): (r: State<C, X>)
    requires Enabled(cl, s, e)
  {
    match e
    case Act(t, arg) => s.(c := cl.next(s.c, t, arg))
    case Call(t) =>
      var w := cl.wants(s.c, t);
      s.(sems := s.sems[w.x := S.Next(s.sems[w.x], Begin(w, t))])
    case Inner(x, e) =>
      State(if S.Effect(s.sems[x], e) == [] then s.c else cl.next(s.c, e.t, 0),
            s.sems[x := S.Next(s.sems[x], e)])
  }

  ghost predicate Init<C(!new), X(!new)>(cl: Client<C, X>, s: State<C, X>) {
    && cl.inv(s.c) && s.sems.Keys == cl.sems
    && forall x :: x in s.sems ==> && S.Init(s.sems[x]) && |s.sems[x].at| == cl.threads
                                   && s.sems[x].init == cl.value(s.c, x)
  }

  ghost predicate Run<C(!new), X(!new)>(cl: Client<C, X>, s: State<C, X>, run: seq<Event<X>>, s': State<C, X>)
    decreases |run|
  {
    if run == [] then s' == s else Enabled(cl, s, run[0]) && Run(cl, Next(cl, s, run[0]), run[1..], s')
  }

  // ----- the invariant

  /** In a sem_up that has not yet taken effect. */
  predicate Giving(at: S.At) {
    at.UpTry? || at.UpIn?
  }

  ghost predicate ThreadOk<C(!new), X(!new)>(cl: Client<C, X>, c: C, sem: S.State, x: X, t: nat) {
    t < |sem.at| ==> && (S.Asking(sem.at[t]) ==> cl.wants(c, t) == Down(x))
                     && (Giving(sem.at[t]) ==> cl.wants(c, t) == Up(x))
  }

  ghost predicate SemOk<C(!new), X(!new)>(cl: Client<C, X>, c: C, sem: S.State, x: X) {
    && S.Inv(sem) && |sem.at| == cl.threads && sem.k.word == cl.value(c, x)
    && forall t: nat :: ThreadOk(cl, c, sem, x, t)
  }

  ghost predicate InCall<C(!new), X(!new)>(s: State<C, X>, t: nat, x: X) {
    x in s.sems && t < |s.sems[x].at| && !s.sems[x].at[t].Idle?
  }

  /** A thread is in one call at most. */
  ghost predicate OneCall<C(!new), X(!new)>(s: State<C, X>, t: nat, x: X, y: X) {
    InCall(s, t, x) && InCall(s, t, y) ==> x == y
  }

  ghost predicate Inv<C(!new), X(!new)>(cl: Client<C, X>, s: State<C, X>) {
    && cl.inv(s.c) && s.sems.Keys == cl.sems
    && (forall x :: x in s.sems ==> SemOk(cl, s.c, s.sems[x], x))
    && (forall t: nat, x, y :: OneCall(s, t, x, y))
  }

  lemma InitInv<C(!new), X(!new)>(cl: Client<C, X>, s: State<C, X>)
    requires Init(cl, s)
    ensures Inv(cl, s)
  {
    forall x | x in s.sems ensures SemOk(cl, s.c, s.sems[x], x) { S.InitInv(s.sems[x]); }
  }

  /** An event of a semaphore moves its own thread only, and inside a call only until it takes effect. */
  lemma OneThread(sem: S.State, e: S.Event, t: nat)
    requires S.Enabled(sem, e) && t < |sem.at|
    ensures |S.Next(sem, e).at| == |sem.at|
    ensures t != e.t ==> S.Next(sem, e).at[t] == sem.at[t]
    ensures !e.Down? && !e.Up? ==> (!S.Next(sem, e).at[t].Idle? ==> !sem.at[t].Idle?)
    ensures !e.Down? && !e.Up? && S.Asking(S.Next(sem, e).at[t]) ==> S.Asking(sem.at[t])
    ensures !e.Down? && !e.Up? && Giving(S.Next(sem, e).at[t]) ==> Giving(sem.at[t])
  {
  }

  lemma EffectIs(sem: S.State, e: S.Event)
    requires S.Enabled(sem, e)
    ensures S.Effect(sem, e) == [] ==> S.Next(sem, e).k.word == sem.k.word
    ensures S.Effect(sem, e) != [] && e.Take? ==>
              S.Asking(sem.at[e.t]) && sem.k.word > 0 && S.Next(sem, e).k.word == sem.k.word - 1
    ensures S.Effect(sem, e) != [] && !e.Take? ==> Giving(sem.at[e.t]) && S.Next(sem, e).k.word == sem.k.word + 1
    ensures S.Effect(sem, e) != [] ==> !S.Asking(S.Next(sem, e).at[e.t]) && !Giving(S.Next(sem, e).at[e.t])
  {
  }

  lemma ActInv<C(!new), X(!new)>(cl: Client<C, X>, s: State<C, X>, t: nat, arg: int)
    requires Sound(cl) && Inv(cl, s) && Enabled(cl, s, Act(t, arg))
    ensures Inv(cl, Next(cl, s, Act(t, arg)))
  {
    var c' := cl.next(s.c, t, arg);
    assert StepOk(cl, s.c, t, arg);
    forall x | x in s.sems ensures SemOk(cl, c', s.sems[x], x) {
      assert SemOk(cl, s.c, s.sems[x], x);
      forall u: nat ensures ThreadOk(cl, c', s.sems[x], x, u) { assert ThreadOk(cl, s.c, s.sems[x], x, u); }
    }
    forall u: nat, x, y ensures OneCall(Next(cl, s, Act(t, arg)), u, x, y) { assert OneCall(s, u, x, y); }
  }

  lemma CallInv<C(!new), X(!new)>(cl: Client<C, X>, s: State<C, X>, t: nat)
    requires Sound(cl) && Inv(cl, s) && Enabled(cl, s, Call(t))
    ensures Inv(cl, Next(cl, s, Call(t)))
  {
    var w := cl.wants(s.c, t);
    var e, s' := Begin(w, t), Next(cl, s, Call(t));
    assert SemOk(cl, s.c, s.sems[w.x], w.x);
    S.InvNext(s.sems[w.x], e);
    hide S.Inv;
    forall x | x in s'.sems ensures SemOk(cl, s.c, s'.sems[x], x) {
      assert SemOk(cl, s.c, s.sems[x], x);
      forall u: nat ensures ThreadOk(cl, s.c, s'.sems[x], x, u) { assert ThreadOk(cl, s.c, s.sems[x], x, u); }
    }
    forall u: nat, x, y ensures OneCall(s', u, x, y) { assert OneCall(s, u, x, y); }
  }

  /** The call takes effect when the thread that makes it could go on. */
  lemma EffectCanGo<C(!new), X(!new)>(cl: Client<C, X>, s: State<C, X>, x: X, e: S.Event)
    requires Sound(cl) && Inv(cl, s) && Enabled(cl, s, Inner(x, e)) && S.Effect(s.sems[x], e) != []
    ensures CanGo(cl, s.c, e.t) && cl.wants(s.c, e.t) == if e.Take? then Down(x) else Up(x)
  {
    assert SemOk(cl, s.c, s.sems[x], x) && ThreadOk(cl, s.c, s.sems[x], x, e.t);
    EffectIs(s.sems[x], e);
    hide S.Inv, S.Next;
  }

  /** The semaphore itself, before and after an event that changes the program from `c` to `c'`. */
  lemma InnerSem<C(!new), X(!new)>(cl: Client<C, X>, c: C, c': C, sem: S.State, x: X, e: S.Event)
    requires SemOk(cl, c, sem, x) && S.Enabled(sem, e) && !e.Down? && !e.Up?
    requires S.Effect(sem, e) == [] ==> c' == c
    requires S.Effect(sem, e) != [] ==> cl.value(c', x) == cl.value(c, x) + if e.Take? then -1 else 1
    requires forall u: nat :: u < cl.threads && u != e.t ==> cl.wants(c', u) == cl.wants(c, u)
    ensures SemOk(cl, c', S.Next(sem, e), x)
  {
    S.InvNext(sem, e);
    EffectIs(sem, e);
    OneThread(sem, e, e.t);
    hide S.Inv, S.Next, S.Effect, S.Enabled, S.Asking, Giving;
    forall u: nat ensures ThreadOk(cl, c', S.Next(sem, e), x, u) {
      assert ThreadOk(cl, c, sem, x, u);
      if u < |sem.at| { OneThread(sem, e, u); }
    }
  }

  /** The other semaphores, where the thread is in no call. */
  lemma OtherSem<C(!new), X(!new)>(cl: Client<C, X>, c: C, c': C, sem: S.State, y: X, t: nat)
    requires SemOk(cl, c, sem, y) && cl.value(c', y) == cl.value(c, y)
    requires forall u: nat :: u < cl.threads && u != t ==> cl.wants(c', u) == cl.wants(c, u)
    requires c' == c || (t < |sem.at| ==> sem.at[t].Idle?)
    ensures SemOk(cl, c', sem, y)
  {
    hide S.Inv;
    forall u: nat ensures ThreadOk(cl, c', sem, y, u) { assert ThreadOk(cl, c, sem, y, u); }
  }

  lemma SoundStep<C(!new), X(!new)>(cl: Client<C, X>, c: C, t: nat, arg: int)
    requires Sound(cl)
    ensures StepOk(cl, c, t, arg)
  {
  }

  lemma InnerSems<C(!new), X(!new)>(cl: Client<C, X>, s: State<C, X>, x: X, e: S.Event, y: X)
    requires Sound(cl) && Inv(cl, s) && Enabled(cl, s, Inner(x, e)) && y in s.sems
    ensures SemOk(cl, Next(cl, s, Inner(x, e)).c, Next(cl, s, Inner(x, e)).sems[y], y)
  {
    hide S.Inv, S.Next, S.Effect, S.Enabled, SemOk, ThreadOk, Sound;
    var s' := Next(cl, s, Inner(x, e));
    assert SemOk(cl, s.c, s.sems[x], x) && SemOk(cl, s.c, s.sems[y], y);
    EffectIs(s.sems[x], e);
    if S.Effect(s.sems[x], e) != [] {
      EffectCanGo(cl, s, x, e);
      SoundStep(cl, s.c, e.t, 0);
    }
    if y == x {
      InnerSem(cl, s.c, s'.c, s.sems[x], x, e);
    } else {
      InThread(s.sems[x], e);
      assert OneCall(s, e.t, x, y);
      OtherSem(cl, s.c, s'.c, s.sems[y], y, e.t);
    }
  }

  lemma InThread(sem: S.State, e: S.Event)
    requires S.Enabled(sem, e)
    ensures e.t < |sem.at| && (!e.Down? && !e.Up? ==> S.Effect(sem, e) == [] || !sem.at[e.t].Idle?)
  {
  }

  lemma InnerInv<C(!new), X(!new)>(cl: Client<C, X>, s: State<C, X>, x: X, e: S.Event)
    requires Sound(cl) && Inv(cl, s) && Enabled(cl, s, Inner(x, e))
    ensures Inv(cl, Next(cl, s, Inner(x, e)))
  {
    hide S.Inv, S.Next, S.Effect, S.Enabled, SemOk, ThreadOk, Sound;
    var s' := Next(cl, s, Inner(x, e));
    if S.Effect(s.sems[x], e) != [] {
      EffectCanGo(cl, s, x, e);
      SoundStep(cl, s.c, e.t, 0);
    }
    forall y | y in s'.sems ensures SemOk(cl, s'.c, s'.sems[y], y) { InnerSems(cl, s, x, e, y); }
    InnerCalls(cl, s, x, e);
  }

  lemma InnerCalls<C(!new), X(!new)>(cl: Client<C, X>, s: State<C, X>, x: X, e: S.Event)
    requires Inv(cl, s) && Enabled(cl, s, Inner(x, e))
    ensures forall u: nat, y, z :: OneCall(Next(cl, s, Inner(x, e)), u, y, z)
  {
    hide S.Inv, S.Next, S.Effect, S.Enabled, SemOk, ThreadOk;
    var s' := Next(cl, s, Inner(x, e));
    forall u: nat, y, z ensures OneCall(s', u, y, z) {
      assert OneCall(s, u, y, z);
      InThread(s.sems[x], e);
      OneThread(s.sems[x], e, e.t);
      if u < |s.sems[x].at| { OneThread(s.sems[x], e, u); }
    }
  }

  lemma InvNext<C(!new), X(!new)>(cl: Client<C, X>, s: State<C, X>, e: Event<X>)
    requires Sound(cl) && Inv(cl, s) && Enabled(cl, s, e)
    ensures Inv(cl, Next(cl, s, e))
  {
    match e
    case Act(t, arg) => ActInv(cl, s, t, arg);
    case Call(t) => CallInv(cl, s, t);
    case Inner(x, e) => InnerInv(cl, s, x, e);
  }

  // ----- what a program does is what it does with atomic semaphores

  /** The steps of the program in an event. */
  ghost function StepsOf<C(!new), X(!new)>(cl: Client<C, X>, s: State<C, X>, e: Event<X>): (steps: seq<(nat, int)>)
    requires Enabled(cl, s, e)
  {
    match e
    case Act(t, arg) => [(t, arg)]
    case Call(t) => []
    case Inner(x, e) => if S.Effect(s.sems[x], e) == [] then [] else [(e.t, 0)]
  }

  ghost function Trace<C(!new), X(!new)>(cl: Client<C, X>, s: State<C, X>, run: seq<Event<X>>, s': State<C, X>)
    : (steps: seq<(nat, int)>)
    requires Run(cl, s, run, s')
    decreases |run|
  {
    if run == [] then [] else StepsOf(cl, s, run[0]) + Trace(cl, Next(cl, s, run[0]), run[1..], s')
  }

  lemma OneStep<C(!new), X(!new)>(cl: Client<C, X>, s: State<C, X>, e: Event<X>, rest: seq<(nat, int)>, c': C)
    requires Sound(cl) && Inv(cl, s) && Enabled(cl, s, e) && AtomicRun(cl, Next(cl, s, e).c, rest, c')
    ensures AtomicRun(cl, s.c, StepsOf(cl, s, e) + rest, c')
  {
    if e.Inner? && S.Effect(s.sems[e.x], e.e) != [] { EffectCanGo(cl, s, e.x, e.e); }
    var steps := StepsOf(cl, s, e);
    assert (steps + rest)[|steps|..] == rest;
    if steps == [] { assert steps + rest == rest; }
    hide Inv, Sound;
  }

  /** Every run over the library's semaphores is one over atomic counters, with the same values. */
  lemma {:induction false} Refines<C(!new), X(!new)>(cl: Client<C, X>, s: State<C, X>, run: seq<Event<X>>,
                                                     s': State<C, X>)
    requires Sound(cl) && Inv(cl, s) && Run(cl, s, run, s')
    ensures Inv(cl, s') && AtomicRun(cl, s.c, Trace(cl, s, run, s'), s'.c)
    decreases |run|
  {
    hide Inv, Sound, Enabled, Next, StepsOf;
    if run != [] {
      var next := Next(cl, s, run[0]);
      InvNext(cl, s, run[0]);
      Refines(cl, next, run[1..], s');
      OneStep(cl, s, run[0], Trace(cl, next, run[1..], s'), s'.c);
    }
  }

  /** A thread that could go on with atomic semaphores lets some thread go on here. */
  lemma GoesOn<C(!new), X(!new)>(cl: Client<C, X>, s: State<C, X>, t: nat) returns (e: Event<X>)
    requires Sound(cl) && Inv(cl, s) && CanGo(cl, s.c, t)
    ensures Enabled(cl, s, e) && (e.Inner? ==> S.Program(e.e))
  {
    if x :| InCall(s, t, x) {
      assert SemOk(cl, s.c, s.sems[x], x) && ThreadOk(cl, s.c, s.sems[x], x, t) && S.Matches(s.sems[x], t);
      var e' := S.GoesOn(s.sems[x], t);
      e := Inner(x, e');
    } else {
      forall x | x in s.sems ensures t < |s.sems[x].at| && s.sems[x].at[t].Idle? {
        assert SemOk(cl, s.c, s.sems[x], x) && !InCall(s, t, x);
      }
      var w := cl.wants(s.c, t);
      if w.Local? {
        e := Act(t, 0);
      } else {
        assert SemOk(cl, s.c, s.sems[w.x], w.x);
        e := Call(t);
      }
    }
  }
}
