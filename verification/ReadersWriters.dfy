/**
 Readers and writers of rw.c over two semaphores, taken as the atomic counters of Semaphore (OverSemaphores). Any number
 of threads, each reading or writing; every access to read_count and shared_data is a step of its own.
 */
module ReadersWriters {
  import opened Counting
  import Semaphore
  import SemaphoreClient

  datatype At =
    | Idle
    | R1              // read_shared_data: has mutex
    | R2              // has incremented read_count
    | R3              // saw it become 1; about to take rw_mutex
    | R4              // may read; about to release mutex
    | Reading
    | R5              // has mutex again
    | R6              // has decremented read_count
    | R7              // saw it become 0; about to release rw_mutex
    | R8              // about to release mutex
    | W1              // write_shared_data: has rw_mutex
    | W2(seen: int)   // has read shared_data
    | W3              // has stored it incremented

  /** `writes` counts the increments done. */
  datatype State = State(mutex: int, rw: int, readers: int, data: int, at: seq<At>, writes: nat)

  datatype Event = Read(t: nat) | Write(t: nat) | Step(t: nat)

  predicate Enabled(s: State, e: Event) {
    && e.t < |s.at|
    && match e
       case Read(t) => s.at[t].Idle? && s.mutex > 0
       case Write(t) => s.at[t].Idle? && s.rw > 0
       case Step(t) => && !s.at[t].Idle?
                       && (s.at[t].Reading? ==> s.mutex > 0)
                       && (s.at[t].R3? ==> s.rw > 0)
  }

  function Next(s: State, e: Event): (r: State)
    requires Enabled(s, e)
  {
    match e
    case Read(t) => s.(mutex := s.mutex - 1, at := s.at[t := R1])
    case Write(t) => s.(rw := s.rw - 1, at := s.at[t := W1])
    case Step(t) => Stepped(s, t)
  }

  function Stepped(s: State, t: nat): (r: State)
    requires Enabled(s, Step(t))
  {
    match s.at[t]
    case R1 => s.(readers := s.readers + 1, at := s.at[t := R2])
    case R2 => s.(at := s.at[t := if s.readers == 1 then R3 else R4])
    case R3 => s.(rw := s.rw - 1, at := s.at[t := R4])
    case R4 => s.(mutex := s.mutex + 1, at := s.at[t := Reading])
    case Reading => s.(mutex := s.mutex - 1, at := s.at[t := R5])
    case R5 => s.(readers := s.readers - 1, at := s.at[t := R6])
    case R6 => s.(at := s.at[t := if s.readers == 0 then R7 else R8])
    case R7 => s.(rw := s.rw + 1, at := s.at[t := R8])
    case R8 => s.(mutex := s.mutex + 1, at := s.at[t := Idle])
    case W1 => s.(at := s.at[t := W2(s.data)])
    case W2(seen) => s.(data := seen + 1, at := s.at[t := W3], writes := s.writes + 1)
    case W3 => s.(rw := s.rw + 1, at := s.at[t := Idle])
  }

  ghost predicate Init(s: State) {
    && s.mutex == 1 && s.rw == 1 && s.readers == 0 && s.data == 0 && s.writes == 0
    && forall t :: 0 <= t < |s.at| ==> s.at[t].Idle?
  }

  ghost predicate Run(s: State, run: seq<Event>, s': State)
    decreases |run|
  {
    if run == [] then s' == s else Enabled(s, run[0]) && Run(Next(s, run[0]), run[1..], s')
  }

  // ----- the invariant

  ghost predicate HasMutex(at: At) {
    at.R1? || at.R2? || at.R3? || at.R4? || at.R5? || at.R6? || at.R7? || at.R8?
  }

  ghost predicate Writing(at: At) { at.W1? || at.W2? || at.W3? }

  /** Counted in read_count while the group of readers has rw_mutex. */
  ghost predicate Admitted(at: At) { at.R4? || at.Reading? || at.R5? }

  /** Counted in read_count before the group has rw_mutex. */
  ghost predicate Entering(at: At) { at.R2? || at.R3? }

  ghost predicate Decremented(at: At) { at.R6? }
  ghost predicate Last(at: At) { at.R7? }

  /** The group of readers has rw_mutex: some are admitted, or the last one out has yet to release it. */
  ghost predicate GroupHas(s: State) {
    || Count(s.at, Admitted) > 0
    || Count(s.at, Last) > 0
    || (Count(s.at, Decremented) > 0 && s.readers == 0)
  }

  /** What the thread inside a semaphore knows. */
  ghost predicate Knows(s: State, t: nat) {
    t < |s.at| ==> && (s.at[t].R3? ==> s.readers == 1)
                   && (s.at[t].R7? ==> s.readers == 0)
                   && (s.at[t].W2? ==> s.at[t].seen == s.data)
  }

  ghost predicate Counted(s: State) {
    && s.mutex >= 0 && s.rw >= 0
    && s.mutex + Count(s.at, HasMutex) == 1
    && s.readers == Count(s.at, Admitted) + Count(s.at, Entering)
    && s.rw + Count(s.at, Writing) + (if GroupHas(s) then 1 else 0) == 1
    && s.data == s.writes
  }

  ghost predicate Inv(s: State) {
    Counted(s) && forall t :: Knows(s, t)
  }

  lemma InitInv(s: State)
    requires Init(s)
    ensures Inv(s)
  {
    CountZero(s.at, HasMutex); CountZero(s.at, Writing); CountZero(s.at, Admitted);
    CountZero(s.at, Entering); CountZero(s.at, Decremented); CountZero(s.at, Last);
  }

  /** One thread has mutex; no other is half in or half out. */
  lemma Alone(s: State, t: nat)
    requires Counted(s) && t < |s.at| && HasMutex(s.at[t])
    ensures Count(s.at, Entering) == (if Entering(s.at[t]) then 1 else 0)
    ensures Count(s.at, Decremented) == (if Decremented(s.at[t]) then 1 else 0)
    ensures Count(s.at, Last) == (if Last(s.at[t]) then 1 else 0)
    ensures forall u :: 0 <= u < |s.at| && u != t ==> !HasMutex(s.at[u])
  {
    var rest := s.at[t := Idle];
    CountUpdate(s.at, HasMutex, t, Idle); CountZero(rest, HasMutex);
    CountUpdate(s.at, Entering, t, Idle); CountZero(rest, Entering);
    CountUpdate(s.at, Decremented, t, Idle); CountZero(rest, Decremented);
    CountUpdate(s.at, Last, t, Idle); CountZero(rest, Last);
    forall u | 0 <= u < |s.at| && u != t ensures !HasMutex(s.at[u]) { assert rest[u] == s.at[u]; }
  }

  lemma NoneInside(s: State)
    requires Counted(s) && s.mutex > 0
    ensures Count(s.at, Entering) == 0 && Count(s.at, Decremented) == 0 && Count(s.at, Last) == 0
  {
    CountZero(s.at, HasMutex); CountZero(s.at, Entering); CountZero(s.at, Decremented); CountZero(s.at, Last);
  }

  lemma OneWriter(s: State, t: nat)
    requires Counted(s) && t < |s.at| && Writing(s.at[t])
    ensures !GroupHas(s) && s.rw == 0 && Count(s.at, Writing) == 1
    ensures forall u :: 0 <= u < |s.at| && u != t ==> !Writing(s.at[u]) && !Admitted(s.at[u])
  {
    CountPositive(s.at, Writing, t);
    CountZero(s.at, Admitted);
    CountUpdate(s.at, Writing, t, Idle);
    CountZero(s.at[t := Idle], Writing);
    forall u | 0 <= u < |s.at| && u != t ensures !Writing(s.at[u]) { assert s.at[t := Idle][u] == s.at[u]; }
  }

  lemma CountsMove(at: seq<At>, t: nat, next: At)
    requires t < |at|
    ensures Count(at[t := next], HasMutex)
         == Count(at, HasMutex) - (if HasMutex(at[t]) then 1 else 0) + (if HasMutex(next) then 1 else 0)
    ensures Count(at[t := next], Writing)
         == Count(at, Writing) - (if Writing(at[t]) then 1 else 0) + (if Writing(next) then 1 else 0)
    ensures Count(at[t := next], Admitted)
         == Count(at, Admitted) - (if Admitted(at[t]) then 1 else 0) + (if Admitted(next) then 1 else 0)
    ensures Count(at[t := next], Entering)
         == Count(at, Entering) - (if Entering(at[t]) then 1 else 0) + (if Entering(next) then 1 else 0)
    ensures Count(at[t := next], Decremented)
         == Count(at, Decremented) - (if Decremented(at[t]) then 1 else 0) + (if Decremented(next) then 1 else 0)
    ensures Count(at[t := next], Last)
         == Count(at, Last) - (if Last(at[t]) then 1 else 0) + (if Last(next) then 1 else 0)
  {
    CountUpdate(at, HasMutex, t, next);
    CountUpdate(at, Writing, t, next);
    CountUpdate(at, Admitted, t, next);
    CountUpdate(at, Entering, t, next);
    CountUpdate(at, Decremented, t, next);
    CountUpdate(at, Last, t, next);
  }

  lemma CountedNext(s: State, e: Event)
    requires Inv(s) && Enabled(s, e)
    ensures Counted(Next(s, e))
  {
    hide Count;
    var t := e.t;
    CountsMove(s.at, t, Next(s, e).at[t]);
    assert Knows(s, t);
    if HasMutex(s.at[t]) { Alone(s, t); }
    if s.mutex > 0 { NoneInside(s); }
    if Writing(s.at[t]) { OneWriter(s, t); }
    if s.at[t].R5? || s.at[t].R4? || s.at[t].Reading? { CountPositive(s.at, Admitted, t); }
  }

  lemma KnowsNext(s: State, e: Event)
    requires Inv(s) && Enabled(s, e)
    ensures forall u :: Knows(Next(s, e), u)
  {
    var t := e.t;
    if HasMutex(s.at[t]) { Alone(s, t); }
    if Writing(s.at[t]) { OneWriter(s, t); }
    hide Counted;
    forall u: nat ensures Knows(Next(s, e), u) {
      assert Knows(s, u);
    }
  }

  lemma {:induction false} InvRun(s: State, run: seq<Event>, s': State)
    requires Inv(s) && Run(s, run, s')
    ensures Inv(s')
    decreases |run|
  {
    if run != [] {
      CountedNext(s, run[0]);
      KnowsNext(s, run[0]);
      InvRun(Next(s, run[0]), run[1..], s');
    }
  }

  // ----- what holds in every reachable state

  /** A writer overlaps no reader and no other writer. */
  lemma Exclusion(s: State, run: seq<Event>, s': State, t: nat, u: nat)
    requires Init(s) && Run(s, run, s') && t < |s'.at| && u < |s'.at| && t != u && Writing(s'.at[t])
    ensures !s'.at[u].Reading? && !Writing(s'.at[u])
  {
    InitInv(s);
    InvRun(s, run, s');
    OneWriter(s', t);
  }

  /** No increment is lost. */
  lemma NoLostWrite(s: State, run: seq<Event>, s': State)
    requires Init(s) && Run(s, run, s')
    ensures s'.data == s'.writes
  {
    InitInv(s);
    InvRun(s, run, s');
  }

  /** A step that changes the data is taken while nobody reads. */
  lemma StableReads(s: State, run: seq<Event>, s': State, e: Event, t: nat)
    requires Init(s) && Run(s, run, s') && Enabled(s', e) && t < |s'.at| && s'.at[t].Reading?
    ensures Next(s', e).data == s'.data
  {
    InitInv(s);
    InvRun(s, run, s');
    if Writing(s'.at[e.t]) { OneWriter(s', e.t); }
  }

  /** While some thread is in the middle of a call, some thread can take a step. */
  lemma NoDeadlock(s: State, run: seq<Event>, s': State, t: nat) returns (e: Event)
    requires Init(s) && Run(s, run, s') && t < |s'.at| && !s'.at[t].Idle?
    ensures e.Step? && Enabled(s', e)
  {
    InitInv(s);
    InvRun(s, run, s');
    var u := t;
    if s'.mutex == 0 {
      CountZero(s'.at, HasMutex);
      u :| 0 <= u < |s'.at| && HasMutex(s'.at[u]);
      assert Knows(s', u);
      if s'.at[u].R3? && s'.rw == 0 {
        Alone(s', u);
        CountZero(s'.at, Writing);
        u :| 0 <= u < |s'.at| && Writing(s'.at[u]);
      }
    } else {
      CountZero(s'.at, HasMutex);
    }
    e := Step(u);
  }

  // ----- every call can finish

  /** How many steps a call has left, at most. */
  function Left(at: At): (n: nat) {
    match at
    case Idle => 0
    case R1 => 9
    case R2 => 8
    case R3 => 7
    case R4 => 6
    case Reading => 5
    case R5 => 4
    case R6 => 3
    case R7 => 2
    case R8 => 1
    case W1 => 3
    case W2(_) => 2
    case W3 => 1
  }

  function AllLeft(ats: seq<At>): (n: nat) {
    if ats == [] then 0 else Left(ats[0]) + AllLeft(ats[1..])
  }

  lemma {:induction false} AllLeftUpdate(ats: seq<At>, t: nat, at: At)
    requires t < |ats|
    ensures AllLeft(ats[t := at]) == AllLeft(ats) - Left(ats[t]) + Left(at)
  {
    if t == 0 {
      assert ats[0 := at][1..] == ats[1..];
    } else {
      AllLeftUpdate(ats[1..], t - 1, at);
      assert ats[t := at][1..] == ats[1..][t - 1 := at];
    }
  }

  /** Every step of a call brings it nearer its end, and no other call further from it. */
  lemma StepDescends(s: State, t: nat)
    requires Enabled(s, Step(t))
    ensures |Next(s, Step(t)).at| == |s.at|
    ensures AllLeft(Next(s, Step(t)).at) < AllLeft(s.at) <= AllLeft(Next(s, Step(t)).at) + 2
  {
    AllLeftUpdate(s.at, t, Next(s, Step(t)).at[t]);
  }

  lemma {:induction false} RunLast(s: State, run: seq<Event>, s': State, e: Event)
    requires Run(s, run, s') && Enabled(s', e)
    ensures Run(s, run + [e], Next(s', e))
    decreases |run|
  {
    hide Next, Enabled;
    if run == [] {
      assert (run + [e])[1..] == [];
    } else {
      RunLast(Next(s, run[0]), run[1..], s', e);
      assert (run + [e])[1..] == run[1..] + [e];
    }
  }

  /** From every reachable state the calls under way can all be finished, with no new one begun. */
  lemma {:induction false} Finishes(s0: State, run0: seq<Event>, s: State) returns (run: seq<Event>, s': State)
    requires Init(s0) && Run(s0, run0, s)
    ensures Run(s, run, s') && forall i :: 0 <= i < |run| ==> run[i].Step?
    ensures |s'.at| == |s.at| && forall t :: 0 <= t < |s'.at| ==> s'.at[t].Idle?
    ensures s'.mutex == 1 && s'.rw == 1 && s'.readers == 0
    decreases AllLeft(s.at)
  {
    if forall t :: 0 <= t < |s.at| ==> s.at[t].Idle? {
      run, s' := [], s;
      AtRest(s0, run0, s);
    } else {
      hide Next, Enabled, Init;
      var t :| 0 <= t < |s.at| && !s.at[t].Idle?;
      var e := NoDeadlock(s0, run0, s, t);
      RunLast(s0, run0, s, e);
      StepDescends(s, e.t);
      run, s' := Finishes(s0, run0 + [e], Next(s, e));
      assert ([e] + run)[1..] == run;
      run := [e] + run;
    }
  }

  /** When nobody is in the middle of a call both semaphores are free and no reader is counted. */
  lemma AtRest(s: State, run: seq<Event>, s': State)
    requires Init(s) && Run(s, run, s') && forall t :: 0 <= t < |s'.at| ==> s'.at[t].Idle?
    ensures s'.mutex == 1 && s'.rw == 1 && s'.readers == 0
  {
    InitInv(s);
    InvRun(s, run, s');
    CountZero(s'.at, HasMutex); CountZero(s'.at, Writing); CountZero(s'.at, Admitted);
    CountZero(s'.at, Entering); CountZero(s'.at, Decremented); CountZero(s'.at, Last);
  }

  // ----- readers share

  ghost predicate CanGo(s: State, t: nat, n: nat)
    decreases n
  {
    n == 0 || (Enabled(s, Step(t)) && CanGo(Next(s, Step(t)), t, n - 1))
  }

  /** Thread `t` takes `n` steps by itself. */
  ghost function Goes(s: State, t: nat, n: nat): (s': State)
    requires CanGo(s, t, n)
    decreases n
  {
    if n == 0 then s else Goes(Next(s, Step(t)), t, n - 1)
  }

  /**
   Unless somebody writes, or is at this moment coming in or going out, another thread can join the readers: it reads
   within five steps of its own, and nobody else has moved.
   */
  lemma ReaderJoins(s0: State, run0: seq<Event>, s: State, t: nat)
    requires Init(s0) && Run(s0, run0, s) && t < |s.at| && s.at[t].Idle? && s.mutex > 0
    requires forall u :: 0 <= u < |s.at| ==> !Writing(s.at[u])
    ensures Enabled(s, Read(t))
    ensures var n := if s.readers == 0 then 4 else 3;
            CanGo(Next(s, Read(t)), t, n) && Goes(Next(s, Read(t)), t, n).at == s.at[t := Reading]
  {
    InitInv(s0);
    InvRun(s0, run0, s);
    NoneInside(s);
    CountZero(s.at, Writing);
    hide Count;
    var s1 := Next(s, Read(t));
    var s2 := Next(s1, Step(t));
    var s3 := Next(s2, Step(t));
    var s4 := Next(s3, Step(t));
    if s.readers == 0 {
      assert s4.at == s.at[t := R4];
      assert Next(s4, Step(t)).at == s.at[t := Reading];
      assert CanGo(s4, t, 1) && CanGo(s3, t, 2) && CanGo(s2, t, 3);
    } else {
      assert s4.at == s.at[t := Reading];
      assert CanGo(s3, t, 1) && CanGo(s2, t, 2);
    }
  }

  /** Unless somebody reads or writes, a thread can write, and the shared value is one more. */
  lemma WriterWrites(s0: State, run0: seq<Event>, s: State, t: nat)
    requires Init(s0) && Run(s0, run0, s) && t < |s.at| && s.at[t].Idle?
    requires forall u :: 0 <= u < |s.at| ==> s.at[u].Idle?
    ensures Enabled(s, Write(t)) && CanGo(Next(s, Write(t)), t, 3)
    ensures var s' := Goes(Next(s, Write(t)), t, 3); s'.at == s.at && s'.data == s.data + 1
  {
    AtRest(s0, run0, s);
    var s1 := Next(s, Write(t));
    var s2 := Next(s1, Step(t));
    var s3 := Next(s2, Step(t));
    assert Next(s3, Step(t)).at == s.at;
    assert CanGo(s3, t, 1) && CanGo(s2, t, 2);
  }

  // ----- what the data says

  ghost predicate Unwritten(at: At) { at.W1? || at.W2? }

  /** How many calls of write_shared_data have begun. */
  ghost function Writes(run: seq<Event>): (n: nat) {
    if run == [] then 0 else (if run[0].Write? then 1 else 0) + Writes(run[1..])
  }

  lemma WriteOne(s: State, e: Event)
    requires Enabled(s, e)
    ensures var n := Next(s, e);
            n.writes + Count(n.at, Unwritten) == s.writes + Count(s.at, Unwritten) + if e.Write? then 1 else 0
  {
    hide Count;
    CountUpdate(s.at, Unwritten, e.t, Next(s, e).at[e.t]);
  }

  lemma {:induction false} WritesRun(s: State, run: seq<Event>, s': State)
    requires Run(s, run, s')
    ensures s'.writes + Count(s'.at, Unwritten) == s.writes + Count(s.at, Unwritten) + Writes(run)
    decreases |run|
  {
    if run != [] {
      hide Count, Next, Enabled;
      WriteOne(s, run[0]);
      WritesRun(Next(s, run[0]), run[1..], s');
    }
  }

  /** shared_data counts the writes begun, but those that have yet to store. */
  lemma EveryWrite(s: State, run: seq<Event>, s': State)
    requires Init(s) && Run(s, run, s')
    ensures s'.data == Writes(run) - Count(s'.at, Unwritten)
  {
    CountZero(s.at, Unwritten);
    NoLostWrite(s, run, s');
    WritesRun(s, run, s');
  }

  // ----- the two semaphores

  function Value(s: State, rw: bool): (v: int) {
    if rw then s.rw else s.mutex
  }

  /** What an event does to `rw`, or with `rw` false to `mutex`. */
  function Effect(s: State, e: Event, rw: bool): (ops: seq<Semaphore.Op>)
    requires Enabled(s, e)
  {
    match e
    case Read(t) => if rw then [] else [Semaphore.P(t)]
    case Write(t) => if rw then [Semaphore.P(t)] else []
    case Step(t) =>
      var at := s.at[t];
      if (if rw then at.R3? else at.Reading?) then [Semaphore.P(t)]
      else if (if rw then at.R7? || at.W3? else at.R4? || at.R8?) then [Semaphore.V(t)]
      else []
  }

  ghost function Trace(s: State, run: seq<Event>, s': State, rw: bool): (ops: seq<Semaphore.Op>)
    requires Run(s, run, s')
    decreases |run|
  {
    if run == [] then [] else Effect(s, run[0], rw) + Trace(Next(s, run[0]), run[1..], s', rw)
  }

  lemma OneEvent(s: State, e: Event, rw: bool, rest: seq<Semaphore.Op>, v: int)
    requires Enabled(s, e) && Semaphore.Atomic(Value(Next(s, e), rw), rest, v)
    ensures Semaphore.Atomic(Value(s, rw), Effect(s, e, rw) + rest, v)
  {
    var ops := Effect(s, e, rw);
    assert (ops + rest)[|ops|..] == rest;
    if ops == [] { assert ops + rest == rest; }
  }

  /** Both are used as a run of Semaphore's atomic counter uses it. */
  lemma {:induction false} OverSemaphores(s: State, run: seq<Event>, s': State, rw: bool)
    requires Run(s, run, s')
    ensures Semaphore.Atomic(Value(s, rw), Trace(s, run, s', rw), Value(s', rw))
    decreases |run|
  {
    hide Effect, Next, Semaphore.Atomic;
    if run == [] {
      Semaphore.AtomicNone(Value(s, rw));
    } else {
      OverSemaphores(Next(s, run[0]), run[1..], s', rw);
      OneEvent(s, run[0], rw, Trace(Next(s, run[0]), run[1..], s', rw), Value(s', rw));
    }
  }

  // ----- over the library's semaphores

  /** What an idle thread is about to do. */
  datatype Intent = Undecided | ToRead | ToWrite

  datatype Program = Program(p: State, intent: seq<Intent>)

  /** `true` names rw_mutex and `false` mutex. */
  function Wants(c: Program, t: nat): (w: SemaphoreClient.Want<bool>) {
    if t >= |c.p.at| || t >= |c.intent| then SemaphoreClient.Local
    else
      match c.p.at[t]
      case Idle =>
        if c.intent[t].Undecided? then SemaphoreClient.Local else SemaphoreClient.Down(c.intent[t].ToWrite?)
      case R3 => SemaphoreClient.Down(true)
      case R4 => SemaphoreClient.Up(false)
      case Reading => SemaphoreClient.Down(false)
      case R7 => SemaphoreClient.Up(true)
      case R8 => SemaphoreClient.Up(false)
      case W3 => SemaphoreClient.Up(true)
      case _ => SemaphoreClient.Local
  }

  function EventOf(c: Program, t: nat): (e: Event)
    requires t < |c.p.at| && t < |c.intent|
  {
    if !c.p.at[t].Idle? then Step(t) else if c.intent[t].ToWrite? then Write(t) else Read(t)
  }

  /** An undecided thread chooses what to do next; any other does it. */
  function Advance(c: Program, t: nat, arg: int): (r: Program) {
    if t >= |c.p.at| || t >= |c.intent| then c
    else if c.p.at[t].Idle? && c.intent[t].Undecided? then
      c.(intent := c.intent[t := if arg % 2 == 0 then ToRead else ToWrite])
    else if Enabled(c.p, EventOf(c, t)) then Program(Next(c.p, EventOf(c, t)), c.intent[t := Undecided])
    else c
  }

  ghost predicate ProgramInv(c: Program, threads: nat) {
    |c.p.at| == |c.intent| == threads
  }

  ghost function Client(threads: nat): (cl: SemaphoreClient.Client<Program, bool>) {
    SemaphoreClient.Client({false, true}, threads, Wants, Advance, (c: Program, x) => Value(c.p, x),
                           c => ProgramInv(c, threads))
  }

  lemma CanAdvance(c: Program, threads: nat, t: nat)
    requires ProgramInv(c, threads) && SemaphoreClient.CanGo(Client(threads), c, t)
    ensures (c.p.at[t].Idle? && c.intent[t].Undecided?) || Enabled(c.p, EventOf(c, t))
  {
  }

  lemma ValueAdvances(c: Program, t: nat, arg: int, x: bool)
    requires t < |c.p.at| && t < |c.intent|
    requires (c.p.at[t].Idle? && c.intent[t].Undecided?) || Enabled(c.p, EventOf(c, t))
    ensures Value(Advance(c, t, arg).p, x) == Value(c.p, x) + SemaphoreClient.Change(Wants(c, t), x)
  {
  }

  lemma OthersWait(c: Program, t: nat, arg: int, u: nat)
    requires u != t
    ensures Wants(Advance(c, t, arg), u) == Wants(c, u)
  {
  }

  lemma StepOk(threads: nat, c: Program, t: nat, arg: int)
    ensures SemaphoreClient.StepOk(Client(threads), c, t, arg)
  {
    if ProgramInv(c, threads) && SemaphoreClient.CanGo(Client(threads), c, t) {
      CanAdvance(c, threads, t);
      assert ProgramInv(Advance(c, t, arg), threads);
      hide Value, Wants, Advance, SemaphoreClient.Change, Enabled;
      forall x ensures Value(Advance(c, t, arg).p, x) == Value(c.p, x) + SemaphoreClient.Change(Wants(c, t), x) {
        ValueAdvances(c, t, arg, x);
      }
      forall u: nat | u != t ensures Wants(Advance(c, t, arg), u) == Wants(c, u) { OthersWait(c, t, arg, u); }
    }
  }

  lemma Sound(threads: nat)
    ensures SemaphoreClient.Sound(Client(threads))
  {
    var cl := Client(threads);
    forall c, t: nat, arg ensures SemaphoreClient.StepOk(cl, c, t, arg) { StepOk(threads, c, t, arg); }
    hide SemaphoreClient.StepOk;
  }

  /** The program with atomic semaphores is the one studied above. */
  lemma {:induction false} AtomicIsRun(threads: nat, c: Program, steps: seq<(nat, int)>, c': Program)
      returns (run: seq<Event>)
    requires ProgramInv(c, threads) && SemaphoreClient.AtomicRun(Client(threads), c, steps, c')
    ensures Run(c.p, run, c'.p)
    decreases |steps|
  {
    if steps == [] {
      run := [];
    } else {
      var t, next := steps[0].0, Advance(c, steps[0].0, steps[0].1);
      CanAdvance(c, threads, t);
      StepOk(threads, c, t, steps[0].1);
      var rest := AtomicIsRun(threads, next, steps[1..], c');
      if c.p.at[t].Idle? && c.intent[t].Undecided? {
        run := rest;
      } else {
        run := [EventOf(c, t)] + rest;
        assert run[1..] == rest;
      }
    }
  }

  /** The program over the library's semaphores is at every moment where a run of the one above can be. */
  lemma OverLibrary(threads: nat, s: SemaphoreClient.State<Program, bool>, run: seq<SemaphoreClient.Event<bool>>,
                    s': SemaphoreClient.State<Program, bool>) returns (abs: seq<Event>)
    requires Init(s.c.p) && SemaphoreClient.Init(Client(threads), s) && SemaphoreClient.Run(Client(threads), s, run, s')
    ensures Run(s.c.p, abs, s'.c.p) && SemaphoreClient.Inv(Client(threads), s')
  {
    var cl := Client(threads);
    Sound(threads);
    SemaphoreClient.InitInv(cl, s);
    SemaphoreClient.Refines(cl, s, run, s');
    abs := AtomicIsRun(threads, s.c, SemaphoreClient.Trace(cl, s, run, s'), s'.c);
  }

  /** Writers exclude everybody and no write is lost, down to the futex steps of the semaphores. */
  lemma LibraryExclusion(threads: nat, s: SemaphoreClient.State<Program, bool>,
                         run: seq<SemaphoreClient.Event<bool>>, s': SemaphoreClient.State<Program, bool>,
                         t: nat, u: nat)
    requires Init(s.c.p) && SemaphoreClient.Init(Client(threads), s) && SemaphoreClient.Run(Client(threads), s, run, s')
    requires t < |s'.c.p.at| && u < |s'.c.p.at| && t != u
    ensures Writing(s'.c.p.at[t]) ==> !s'.c.p.at[u].Reading? && !Writing(s'.c.p.at[u])
    ensures s'.c.p.data == s'.c.p.writes
  {
    var abs := OverLibrary(threads, s, run, s');
    hide SemaphoreClient.Run, SemaphoreClient.Init;
    NoLostWrite(s.c.p, abs, s'.c.p);
    if Writing(s'.c.p.at[t]) { Exclusion(s.c.p, abs, s'.c.p, t, u); }
  }

  lemma StepCanGo(threads: nat, s: SemaphoreClient.State<Program, bool>, t: nat)
    requires SemaphoreClient.Inv(Client(threads), s) && Enabled(s.c.p, Step(t))
    ensures SemaphoreClient.CanGo(Client(threads), s.c, t)
  {
  }

  /** While a thread is in the middle of a call, some thread can go on. */
  lemma LibraryNoDeadlock(threads: nat, s: SemaphoreClient.State<Program, bool>,
                          run: seq<SemaphoreClient.Event<bool>>, s': SemaphoreClient.State<Program, bool>, t: nat)
      returns (e: SemaphoreClient.Event<bool>)
    requires Init(s.c.p) && SemaphoreClient.Init(Client(threads), s) && SemaphoreClient.Run(Client(threads), s, run, s')
    requires t < |s'.c.p.at| && !s'.c.p.at[t].Idle?
    ensures SemaphoreClient.Enabled(Client(threads), s', e) && (e.Inner? ==> Semaphore.Program(e.e))
  {
    hide SemaphoreClient.Inv, SemaphoreClient.Run, SemaphoreClient.Init, SemaphoreClient.Enabled, Enabled;
    hide SemaphoreClient.CanGo, SemaphoreClient.Sound;
    var abs := OverLibrary(threads, s, run, s');
    var e' := NoDeadlock(s.c.p, abs, s'.c.p, t);
    StepCanGo(threads, s', e'.t);
    Sound(threads);
    e := SemaphoreClient.GoesOn(Client(threads), s', e'.t);
  }
}
