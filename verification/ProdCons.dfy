/**
 The bounded buffer of prod-cons.c over three semaphores, taken as the atomic counters of Semaphore (OverSemaphores).
 Any number of producers and consumers; every access to the buffer and its indices is a step of its own.
 */
module ProdCons {
  import opened Counting
  import Semaphore
  import SemaphoreClient

  datatype At =
    | Idle
    | P1(item: int)   // produce: has taken from empty
    | P2(item: int)   // and mutex
    | P3(item: int)   // has stored the item
    | P4              // has advanced in
    | P5              // has released mutex; about to raise full
    | C1              // consume: has taken from full
    | C2              // and mutex
    | C3(item: int)   // has read the item
    | C4(item: int)   // has advanced out
    | C5(item: int)   // has released mutex; about to raise empty

  /** `put` and `got` record the items stored and read, in order. */
  datatype State = State(mutex: int, empty: int, full: int, buffer: seq<int>, input: nat, output: nat,
                         at: seq<At>, put: seq<int>, got: seq<int>)

  datatype Event = Produce(t: nat, item: int) | Consume(t: nat) | Step(t: nat)

  predicate Enabled(s: State, e: Event) {
    && e.t < |s.at| && s.input < |s.buffer| && s.output < |s.buffer|
    && match e
       case Produce(t, _) => s.at[t].Idle? && s.empty > 0
       case Consume(t) => s.at[t].Idle? && s.full > 0
       case Step(t) => !s.at[t].Idle? && (s.at[t].P1? || s.at[t].C1? ==> s.mutex > 0)
  }

  function Next(s: State, e: Event): (r: State)
    requires Enabled(s, e)
  {
    match e
    case Produce(t, item) => s.(empty := s.empty - 1, at := s.at[t := P1(item)])
    case Consume(t) => s.(full := s.full - 1, at := s.at[t := C1])
    case Step(t) => Stepped(s, t)
  }

  function Stepped(s: State, t: nat): (r: State)
    requires Enabled(s, Step(t))
  {
    match s.at[t]
    case P1(item) => s.(mutex := s.mutex - 1, at := s.at[t := P2(item)])
    case P2(item) => s.(buffer := s.buffer[s.input := item], at := s.at[t := P3(item)], put := s.put + [item])
    case P3(_) => s.(input := (s.input + 1) % |s.buffer|, at := s.at[t := P4])
    case P4 => s.(mutex := s.mutex + 1, at := s.at[t := P5])
    case P5 => s.(full := s.full + 1, at := s.at[t := Idle])
    case C1 => s.(mutex := s.mutex - 1, at := s.at[t := C2])
    case C2 => s.(at := s.at[t := C3(s.buffer[s.output])], got := s.got + [s.buffer[s.output]])
    case C3(item) => s.(output := (s.output + 1) % |s.buffer|, at := s.at[t := C4(item)])
    case C4(item) => s.(mutex := s.mutex + 1, at := s.at[t := C5(item)])
    case C5(_) => s.(empty := s.empty + 1, at := s.at[t := Idle])
  }

  ghost predicate Init(s: State) {
    && |s.buffer| > 0 && s.mutex == 1 && s.empty == |s.buffer| && s.full == 0
    && s.input == 0 && s.output == 0 && s.put == [] && s.got == []
    && forall t :: 0 <= t < |s.at| ==> s.at[t].Idle?
  }

  ghost predicate Run(s: State, run: seq<Event>, s': State)
    decreases |run|
  {
    if run == [] then s' == s else Enabled(s, run[0]) && Run(Next(s, run[0]), run[1..], s')
  }

  // ----- the invariant

  ghost predicate Inside(at: At) { at.P2? || at.P3? || at.P4? || at.C2? || at.C3? || at.C4? }
  ghost predicate Claimed(at: At) { at.P1? || at.P2? }                // a slot taken, not yet filled
  ghost predicate Filled(at: At) { at.P3? || at.P4? || at.P5? }       // an item stored, not yet announced
  ghost predicate Reserved(at: At) { at.C1? || at.C2? }               // an item taken, not yet read
  ghost predicate Emptied(at: At) { at.C3? || at.C4? || at.C5? }      // an item read, its slot not yet announced
  ghost predicate Stored(at: At) { at.P3? }
  ghost predicate Read(at: At) { at.C3? }

  /** Every slot and every item is accounted for. */
  ghost predicate Counted(s: State) {
    && |s.buffer| > 0 && s.mutex >= 0 && s.empty >= 0 && s.full >= 0
    && s.mutex + Count(s.at, Inside) == 1
    && s.empty + Count(s.at, Claimed) + (|s.put| - |s.got|) + Count(s.at, Emptied) == |s.buffer|
    && s.full + Count(s.at, Reserved) + Count(s.at, Filled) == |s.put| - |s.got|
  }

  /** The slot of the k-th item: one further than the last, around the ring. */
  ghost function Slot(k: nat, n: nat): (r: nat)
    requires n > 0
    ensures r < n
  {
    if k == 0 then 0 else if Slot(k - 1, n) + 1 == n then 0 else Slot(k - 1, n) + 1
  }

  /** `i` is where item number `count` goes, or where the last one went if the index has yet to be advanced. */
  ghost predicate Ring(i: nat, count: nat, half: nat, n: nat) {
    n > 0 && half <= count && i == Slot(count - half, n)
  }

  ghost predicate Placed(s: State) {
    && Ring(s.input, |s.put|, Count(s.at, Stored), |s.buffer|)
    && Ring(s.output, |s.got|, Count(s.at, Read), |s.buffer|)
  }

  /** The buffer holds the items not yet read, in place. */
  ghost predicate Holds(buffer: seq<int>, put: seq<int>, got: seq<int>) {
    && |buffer| > 0 && got <= put && |put| - |got| <= |buffer|
    && forall k :: |got| <= k < |put| ==> buffer[Slot(k, |buffer|)] == put[k]
  }

  ghost predicate Inv(s: State) {
    Counted(s) && Placed(s) && Holds(s.buffer, s.put, s.got)
  }

  lemma InitInv(s: State)
    requires Init(s)
    ensures Inv(s)
  {
    CountZero(s.at, Inside); CountZero(s.at, Claimed); CountZero(s.at, Filled); CountZero(s.at, Reserved);
    CountZero(s.at, Emptied); CountZero(s.at, Stored); CountZero(s.at, Read);
  }

  lemma CountedNext(s: State, e: Event)
    requires Counted(s) && Enabled(s, e)
    ensures Counted(Next(s, e))
  {
    hide Count;
    var next := Next(s, e).at[e.t];
    CountUpdate(s.at, Inside, e.t, next);
    CountUpdate(s.at, Claimed, e.t, next);
    CountUpdate(s.at, Filled, e.t, next);
    CountUpdate(s.at, Reserved, e.t, next);
    CountUpdate(s.at, Emptied, e.t, next);
  }

  /** Only one thread is inside, so at a store or a read no other store or read is half done. */
  lemma Alone(s: State, t: nat)
    requires Counted(s) && t < |s.at| && Inside(s.at[t])
    ensures Count(s.at, Stored) == (if s.at[t].P3? then 1 else 0)
    ensures Count(s.at, Read) == (if s.at[t].C3? then 1 else 0)
  {
    CountUpdate(s.at, Inside, t, Idle);
    CountUpdate(s.at, Stored, t, Idle);
    CountUpdate(s.at, Read, t, Idle);
    CountZero(s.at[t := Idle], Inside);
    CountZero(s.at[t := Idle], Stored);
    CountZero(s.at[t := Idle], Read);
  }

  /** A producer about to store finds a free slot; a consumer about to read finds an item. */
  lemma Room(s: State, t: nat)
    requires Counted(s) && t < |s.at|
    ensures s.at[t].P2? ==> |s.put| - |s.got| < |s.buffer|
    ensures s.at[t].C2? ==> |s.put| > |s.got|
  {
    if s.at[t].P2? { CountPositive(s.at, Claimed, t); }
    if s.at[t].C2? { CountPositive(s.at, Reserved, t); }
  }

  /** Positions less than `n` apart fall into different slots. */
  lemma {:induction false} Apart(i: nat, d: nat, n: nat)
    requires d < n
    ensures Slot(i + d, n) == if Slot(i, n) + d < n then Slot(i, n) + d else Slot(i, n) + d - n
  {
    if d > 0 { Apart(i, d - 1, n); }
  }

  lemma RingNext(i: nat, count: nat, n: nat)
    ensures Ring(i, count, 0, n) ==> Ring(i, count + 1, 1, n)
    ensures Ring(i, count, 1, n) ==> Ring((i + 1) % n, count, 0, n)
  {
  }

  lemma InputNext(s: State, e: Event)
    requires Inv(s) && Enabled(s, e)
    ensures var n := Next(s, e); Ring(n.input, |n.put|, Count(n.at, Stored), |n.buffer|)
  {
    hide Count;
    CountUpdate(s.at, Stored, e.t, Next(s, e).at[e.t]);
    if Inside(s.at[e.t]) { Alone(s, e.t); }
    RingNext(s.input, |s.put|, |s.buffer|);
    hide Holds, Counted, Ring;
  }

  lemma OutputNext(s: State, e: Event)
    requires Inv(s) && Enabled(s, e)
    ensures var n := Next(s, e); Ring(n.output, |n.got|, Count(n.at, Read), |n.buffer|)
  {
    hide Count;
    CountUpdate(s.at, Read, e.t, Next(s, e).at[e.t]);
    if Inside(s.at[e.t]) { Alone(s, e.t); }
    RingNext(s.output, |s.got|, |s.buffer|);
    hide Holds, Counted, Ring;
  }

  lemma StoreHolds(buffer: seq<int>, put: seq<int>, got: seq<int>, item: int)
    requires Holds(buffer, put, got) && |put| - |got| < |buffer|
    ensures Holds(buffer[Slot(|put|, |buffer|) := item], put + [item], got)
  {
    var after := buffer[Slot(|put|, |buffer|) := item];
    forall k | |got| <= k < |put| + 1 ensures after[Slot(k, |buffer|)] == (put + [item])[k] {
      if k < |put| { Apart(k, |put| - k, |buffer|); }
    }
  }

  lemma HoldsNext(s: State, e: Event)
    requires Inv(s) && Enabled(s, e)
    ensures var n := Next(s, e); Holds(n.buffer, n.put, n.got)
  {
    Room(s, e.t);
    if Inside(s.at[e.t]) { Alone(s, e.t); }
    if e.Step? && s.at[e.t].P2? { StoreHolds(s.buffer, s.put, s.got, s.at[e.t].item); }
  }

  lemma InvNext(s: State, e: Event)
    requires Inv(s) && Enabled(s, e)
    ensures Inv(Next(s, e))
  {
    CountedNext(s, e);
    InputNext(s, e);
    OutputNext(s, e);
    HoldsNext(s, e);
    hide Counted, Ring, Holds;
  }

  lemma {:induction false} InvRun(s: State, run: seq<Event>, s': State)
    requires Inv(s) && Run(s, run, s')
    ensures Inv(s') && |s'.buffer| == |s.buffer|
    decreases |run|
  {
    if run != [] {
      InvNext(s, run[0]);
      InvRun(Next(s, run[0]), run[1..], s');
    }
  }

  // ----- what holds in every reachable state

  /** Items come out in the order they went in, and never more than the buffer holds are stored. */
  lemma Fifo(s: State, run: seq<Event>, s': State)
    requires Init(s) && Run(s, run, s')
    ensures s'.got <= s'.put && |s'.buffer| == |s.buffer| > 0
    ensures 0 <= |s'.put| - |s'.got| <= |s.buffer|
    ensures forall k :: |s'.got| <= k < |s'.put| ==> s'.buffer[Slot(k, |s.buffer|)] == s'.put[k]
  {
    InitInv(s);
    InvRun(s, run, s');
    hide Counted, Placed;
  }

  /** The buffer is touched by one thread at a time. */
  lemma OneInside(s: State, run: seq<Event>, s': State, t: nat, u: nat)
    requires Init(s) && Run(s, run, s') && t < |s'.at| && u < |s'.at| && Inside(s'.at[t]) && Inside(s'.at[u])
    ensures t == u
  {
    InitInv(s);
    InvRun(s, run, s');
    if t < u { CountTwo(s'.at, Inside, t, u); }
    if u < t { CountTwo(s'.at, Inside, u, t); }
  }

  /** When nobody is in the middle of a call the semaphores count the items and the free slots. */
  lemma AtRest(s: State, run: seq<Event>, s': State)
    requires Init(s) && Run(s, run, s') && forall t :: 0 <= t < |s'.at| ==> s'.at[t].Idle?
    ensures s'.full == |s'.put| - |s'.got| && s'.empty == |s.buffer| - s'.full && s'.mutex == 1
  {
    InitInv(s);
    InvRun(s, run, s');
    CountZero(s'.at, Inside); CountZero(s'.at, Claimed); CountZero(s'.at, Filled); CountZero(s'.at, Reserved);
    CountZero(s'.at, Emptied);
  }

  /**
   Some thread can go on: while one is in the middle of a call, some such thread; and when none is, there is an item
   to consume or a slot to fill.
   */
  lemma NoDeadlock(s: State, run: seq<Event>, s': State, t: nat) returns (e: Event)
    requires Init(s) && Run(s, run, s') && t < |s'.at|
    ensures Enabled(s', e) && (!s'.at[t].Idle? ==> e.Step?)
    ensures e.Step? <==> exists u :: 0 <= u < |s'.at| && !s'.at[u].Idle?
  {
    InitInv(s);
    InvRun(s, run, s');
    if forall u :: 0 <= u < |s'.at| ==> s'.at[u].Idle? {
      AtRest(s, run, s');
      e := if s'.full > 0 then Consume(t) else Produce(t, 0);
    } else {
      var u :| 0 <= u < |s'.at| && !s'.at[u].Idle?;
      if s'.mutex == 0 {
        CountZero(s'.at, Inside);
        u :| 0 <= u < |s'.at| && Inside(s'.at[u]);
      }
      e := Step(u);
    }
  }

  // ----- every call can finish

  /** An event moves its own thread only. */
  lemma SameThreads(s: State, e: Event)
    requires Enabled(s, e)
    ensures e.t < |s.at| == |Next(s, e).at| && Next(s, e).at == s.at[e.t := Next(s, e).at[e.t]]
  {
  }

  /** How many steps a call has left. */
  function Left(at: At): (n: nat) {
    match at
    case Idle => 0
    case P1(_) => 5
    case P2(_) => 4
    case P3(_) => 3
    case P4 => 2
    case P5 => 1
    case C1 => 5
    case C2 => 4
    case C3(_) => 3
    case C4(_) => 2
    case C5(_) => 1
  }

  function AllLeft(ats: seq<At>): (n: nat) {
    if ats == [] then 0 else Left(ats[0]) + AllLeft(ats[1..])
  }

  lemma {:induction false} AllLeftUpdate(ats: seq<At>, t: nat, at: At)
    requires t < |ats|
    ensures AllLeft(ats[t := at]) == AllLeft(ats) - Left(ats[t]) + Left(at)
  {
    if t == 0 {
      assert ats[0 := at][1..] == ats[1..];
    } else {
      AllLeftUpdate(ats[1..], t - 1, at);
      assert ats[t := at][1..] == ats[1..][t - 1 := at];
    }
  }

  /** Every step of a call brings it nearer its end, and no other call further from it. */
  lemma StepDescends(s: State, t: nat)
    requires Enabled(s, Step(t))
    ensures AllLeft(Next(s, Step(t)).at) == AllLeft(s.at) - 1
  {
    AllLeftUpdate(s.at, t, Next(s, Step(t)).at[t]);
  }

  ghost predicate Steps(run: seq<Event>) {
    forall i :: 0 <= i < |run| ==> run[i].Step?
  }

  lemma {:induction false} RunLast(s: State, run: seq<Event>, s': State, e: Event)
    requires Run(s, run, s') && Enabled(s', e)
    ensures Run(s, run + [e], Next(s', e))
    decreases |run|
  {
    hide Next, Enabled;
    if run == [] {
      assert (run + [e])[1..] == [];
    } else {
      RunLast(Next(s, run[0]), run[1..], s', e);
      assert (run + [e])[1..] == run[1..] + [e];
    }
  }

  /** From every reachable state the calls under way can all be finished, and no other order of steps goes on longer. */
  lemma {:induction false} Finishes(s0: State, run0: seq<Event>, s: State) returns (run: seq<Event>, s': State)
    requires Init(s0) && Run(s0, run0, s)
    ensures Run(s, run, s') && Steps(run) && |run| == AllLeft(s.at)
    ensures |s'.at| == |s.at| && forall t :: 0 <= t < |s'.at| ==> s'.at[t].Idle?
    decreases AllLeft(s.at)
  {
    if forall t :: 0 <= t < |s.at| ==> s.at[t].Idle? {
      run, s' := [], s;
      NoneLeft(s.at);
    } else {
      var t :| 0 <= t < |s.at| && !s.at[t].Idle?;
      var e := NoDeadlock(s0, run0, s, t);
      RunLast(s0, run0, s, e);
      StepDescends(s, e.t);
      SameThreads(s, e);
      hide Next, Enabled, Init;
      run, s' := Finishes(s0, run0 + [e], Next(s, e));
      assert ([e] + run)[1..] == run;
      run := [e] + run;
    }
  }

  lemma {:induction false} NoneLeft(ats: seq<At>)
    requires forall t :: 0 <= t < |ats| ==> ats[t].Idle?
    ensures AllLeft(ats) == 0
  {
    if ats != [] { NoneLeft(ats[1..]); }
  }

  // ----- and does its work

  ghost predicate CanGo(s: State, t: nat, n: nat)
    decreases n
  {
    n == 0 || (Enabled(s, Step(t)) && CanGo(Next(s, Step(t)), t, n - 1))
  }

  /** Thread `t` takes `n` steps by itself. */
  ghost function Goes(s: State, t: nat, n: nat): (s': State)
    requires CanGo(s, t, n)
    decreases n
  {
    if n == 0 then s else Goes(Next(s, Step(t)), t, n - 1)
  }

  lemma FiveSteps(s: State, t: nat)
    requires t < |s.at| && s.input < |s.buffer| && s.output < |s.buffer| && s.mutex == 1
    requires s.at[t].P1? || s.at[t].C1?
    ensures CanGo(s, t, 5) && Goes(s, t, 5).at == s.at[t := Idle]
    ensures s.at[t].P1? ==> Goes(s, t, 5).put == s.put + [s.at[t].item] && Goes(s, t, 5).got == s.got
    ensures s.at[t].C1? ==> Goes(s, t, 5).got == s.got + [s.buffer[s.output]] && Goes(s, t, 5).put == s.put
  {
    var s1 := Next(s, Step(t));
    var s2 := Next(s1, Step(t));
    var s3 := Next(s2, Step(t));
    var s4 := Next(s3, Step(t));
    assert Next(s4, Step(t)).at == s.at[t := Idle];
    assert CanGo(s4, t, 1) && CanGo(s3, t, 2) && CanGo(s2, t, 3) && CanGo(s1, t, 4);
    assert Goes(s, t, 5) == Goes(s1, t, 4) == Goes(s2, t, 3) == Goes(s3, t, 2) == Goes(s4, t, 1);
  }

  lemma RestingIndices(s0: State, run0: seq<Event>, s: State)
    requires Init(s0) && Run(s0, run0, s) && forall u :: 0 <= u < |s.at| ==> s.at[u].Idle?
    ensures s.input < |s.buffer| == |s0.buffer| && s.output < |s.buffer| && s.got <= s.put
    ensures |s.put| > |s.got| ==> s.buffer[s.output] == s.put[|s.got|]
  {
    InitInv(s0);
    InvRun(s0, run0, s);
    CountZero(s.at, Read);
    hide Count, Slot, Counted;
  }

  /** With nobody in a call, produce goes through exactly if the buffer is not full, and stores its item. */
  lemma Produces(s0: State, run0: seq<Event>, s: State, t: nat, item: int)
    requires Init(s0) && Run(s0, run0, s) && t < |s.at| && forall u :: 0 <= u < |s.at| ==> s.at[u].Idle?
    ensures Enabled(s, Produce(t, item)) <==> |s.put| - |s.got| < |s.buffer|
    ensures Enabled(s, Produce(t, item)) ==>
              && CanGo(Next(s, Produce(t, item)), t, 5)
              && var s' := Goes(Next(s, Produce(t, item)), t, 5); s'.at == s.at && s'.put == s.put + [item]
  {
    hide Run, CanGo, Goes, Init;
    AtRest(s0, run0, s);
    RestingIndices(s0, run0, s);
    if Enabled(s, Produce(t, item)) { FiveSteps(Next(s, Produce(t, item)), t); }
  }

  /** And consume exactly if there is an item, and reads the oldest. */
  lemma Consumes(s0: State, run0: seq<Event>, s: State, t: nat)
    requires Init(s0) && Run(s0, run0, s) && t < |s.at| && forall u :: 0 <= u < |s.at| ==> s.at[u].Idle?
    ensures Enabled(s, Consume(t)) <==> |s.put| > |s.got|
    ensures Enabled(s, Consume(t)) ==>
              && CanGo(Next(s, Consume(t)), t, 5)
              && var s' := Goes(Next(s, Consume(t)), t, 5); s'.at == s.at && s'.got == s.got + [s.put[|s.got|]]
  {
    hide Run, CanGo, Goes, Init;
    AtRest(s0, run0, s);
    RestingIndices(s0, run0, s);
    if Enabled(s, Consume(t)) { FiveSteps(Next(s, Consume(t)), t); }
  }

  // ----- what goes in comes out

  /** The four moments of an item: handed to produce, stored, read, and returned by consume. */
  datatype Moment = Given | Entered | Taken | Returned

  /** The item of an event at the given moment, with the thread that has it. */
  function Mark(s: State, e: Event, m: Moment): (log: seq<(nat, int)>)
    requires Enabled(s, e)
  {
    match m
    case Given => if e.Produce? then [(e.t, e.item)] else []
    case Entered => if e.Step? && s.at[e.t].P2? then [(e.t, s.at[e.t].item)] else []
    case Taken => if e.Step? && s.at[e.t].C2? then [(e.t, s.buffer[s.output])] else []
    case Returned => if e.Step? && s.at[e.t].C5? then [(e.t, s.at[e.t].item)] else []
  }

  ghost function Marks(s: State, run: seq<Event>, s': State, m: Moment): (log: seq<(nat, int)>)
    requires Run(s, run, s')
    decreases |run|
  {
    if run == [] then [] else Mark(s, run[0], m) + Marks(Next(s, run[0]), run[1..], s', m)
  }

  ghost function Items(log: seq<(nat, int)>): (items: seq<int>) {
    if log == [] then [] else [log[0].1] + Items(log[1..])
  }

  /** The items of one thread. */
  ghost function Of(log: seq<(nat, int)>, t: nat): (items: seq<int>) {
    if log == [] then [] else (if log[0].0 == t then [log[0].1] else []) + Of(log[1..], t)
  }

  /** The way into the buffer, from Given to Entered, and the way out of it, from Taken to Returned. */
  datatype Way = In | Out

  function First(w: Way): (m: Moment) { if w.In? then Given else Taken }
  function Last(w: Way): (m: Moment) { if w.In? then Entered else Returned }

  /** What a thread is carrying on its way in, or out. */
  function Carried(w: Way, at: At): (items: seq<int>) {
    if w.In? && (at.P1? || at.P2?) then [at.item]
    else if w.Out? && (at.C3? || at.C4? || at.C5?) then [at.item]
    else []
  }

  lemma OfFirst(first: seq<(nat, int)>, rest: seq<(nat, int)>, t: nat)
    requires |first| <= 1
    ensures Of(first + rest, t) == Of(first, t) + Of(rest, t) && Items(first + rest) == Items(first) + Items(rest)
  {
    if first == [] {
      assert first + rest == rest;
    } else {
      assert (first + rest)[1..] == rest && first[1..] == [];
    }
  }

  lemma OfOne(log: seq<(nat, int)>, t: nat)
    requires |log| <= 1
    ensures Of(log, t) == if log != [] && log[0].0 == t then [log[0].1] else []
    ensures Items(log) == if log != [] then [log[0].1] else []
  {
    if log != [] { assert log[1..] == []; }
  }

  lemma MarksFirst(s: State, run: seq<Event>, s': State, m: Moment, t: nat)
    requires Run(s, run, s') && run != []
    ensures var n := Next(s, run[0]);
            && Of(Marks(s, run, s', m), t) == Of(Mark(s, run[0], m), t) + Of(Marks(n, run[1..], s', m), t)
            && Items(Marks(s, run, s', m)) == Items(Mark(s, run[0], m)) + Items(Marks(n, run[1..], s', m))
  {
    hide Of, Items;
    OfFirst(Mark(s, run[0], m), Marks(Next(s, run[0]), run[1..], s', m), t);
  }

  lemma RecordOne(s: State, e: Event)
    requires Enabled(s, e)
    ensures var n := Next(s, e);
            n.put == s.put + Items(Mark(s, e, Entered)) && n.got == s.got + Items(Mark(s, e, Taken))
  {
    hide Of, Items;
    OfOne(Mark(s, e, Entered), 0);
    OfOne(Mark(s, e, Taken), 0);
  }

  lemma Joined(a: seq<int>, b: seq<int>, c: seq<int>)
    ensures a + b + c == a + (b + c)
  {
  }

  /** `put` and `got` are what is stored and what is read. */
  lemma {:induction false} Records(s: State, run: seq<Event>, s': State)
    requires Run(s, run, s')
    ensures s'.put == s.put + Items(Marks(s, run, s', Entered)) && s'.got == s.got + Items(Marks(s, run, s', Taken))
    decreases |run|
  {
    if run != [] {
      hide Of, Items, Next, Enabled, Mark, Marks;
      RecordOne(s, run[0]);
      Records(Next(s, run[0]), run[1..], s');
      MarksFirst(s, run, s', Entered, 0);
      MarksFirst(s, run, s', Taken, 0);
      var n := Next(s, run[0]);
      Joined(s.put, Items(Mark(s, run[0], Entered)), Items(Marks(n, run[1..], s', Entered)));
      Joined(s.got, Items(Mark(s, run[0], Taken)), Items(Marks(n, run[1..], s', Taken)));
    }
  }

  lemma MarkOwn(s: State, e: Event, w: Way)
    requires Enabled(s, e) && |Next(s, e).at| == |s.at|
    ensures Items(Mark(s, e, Last(w))) + Carried(w, Next(s, e).at[e.t])
            == Carried(w, s.at[e.t]) + Items(Mark(s, e, First(w)))
  {
    hide Of, Items;
    OfOne(Mark(s, e, First(w)), e.t);
    OfOne(Mark(s, e, Last(w)), e.t);
    var at, at' := s.at[e.t], Next(s, e).at[e.t];
    hide Run, Enabled;
    match w
    case In => assert Items(Mark(s, e, Entered)) + Carried(In, at') == Carried(In, at) + Items(Mark(s, e, Given));
    case Out => assert Items(Mark(s, e, Returned)) + Carried(Out, at') == Carried(Out, at) + Items(Mark(s, e, Taken));
  }

  lemma MarkOne(s: State, e: Event, t: nat, w: Way)
    requires Enabled(s, e) && t < |s.at|
    ensures |Next(s, e).at| == |s.at|
    ensures Of(Mark(s, e, Last(w)), t) + Carried(w, Next(s, e).at[t])
            == Carried(w, s.at[t]) + Of(Mark(s, e, First(w)), t)
  {
    hide Of, Items;
    SameThreads(s, e);
    MarkOwn(s, e, w);
    OfOne(Mark(s, e, First(w)), t);
    OfOne(Mark(s, e, Last(w)), t);
    hide Next, Carried, Enabled;
  }

  lemma Chain(a: seq<int>, b: seq<int>, c: seq<int>, d: seq<int>, e: seq<int>, f: seq<int>, g: seq<int>)
    requires b + c == d + e && a + d == f + g
    ensures a + b + c == f + (g + e)
  {
    assert a + b + c == a + (b + c) == a + d + e == f + g + e;
  }

  /** Every thread stores what it is given, in order, and returns what it reads, in order. */
  lemma {:induction false} Tracked(s: State, run: seq<Event>, s': State, t: nat, w: Way)
    requires Run(s, run, s') && t < |s.at|
    ensures |s'.at| == |s.at|
    ensures Of(Marks(s, run, s', Last(w)), t) + Carried(w, s'.at[t])
            == Carried(w, s.at[t]) + Of(Marks(s, run, s', First(w)), t)
    decreases |run|
  {
    if run != [] {
      hide Of, Items, Carried, Next, Enabled, Mark, Marks, First, Last;
      var e, n := run[0], Next(s, run[0]);
      MarkOne(s, e, t, w);
      Tracked(n, run[1..], s', t, w);
      MarksFirst(s, run, s', First(w), t);
      MarksFirst(s, run, s', Last(w), t);
      Chain(Of(Mark(s, e, Last(w)), t), Of(Marks(n, run[1..], s', Last(w)), t), Carried(w, s'.at[t]),
            Carried(w, n.at[t]), Of(Marks(n, run[1..], s', First(w)), t), Carried(w, s.at[t]),
            Of(Mark(s, e, First(w)), t));
    }
  }

  /**
   In every run the records hold what was stored and what was read, every thread has stored the items handed to it,
   in order, but the one it still carries, and has returned the items it read, in order, but the one it still carries.
   */
  lemma Provenance(s: State, run: seq<Event>, s': State, t: nat)
    requires Init(s) && Run(s, run, s') && t < |s.at|
    ensures s'.put == Items(Marks(s, run, s', Entered)) && s'.got == Items(Marks(s, run, s', Taken))
    ensures t < |s'.at|
    ensures Of(Marks(s, run, s', Given), t)
            == Of(Marks(s, run, s', Entered), t)
               + if s'.at[t].P1? || s'.at[t].P2? then [s'.at[t].item] else []
    ensures Of(Marks(s, run, s', Taken), t)
            == Of(Marks(s, run, s', Returned), t)
               + if s'.at[t].C3? || s'.at[t].C4? || s'.at[t].C5? then [s'.at[t].item] else []
  {
    hide Of, Items, Marks;
    Tracked(s, run, s', t, In);
    Tracked(s, run, s', t, Out);
    Records(s, run, s');
  }

  // ----- and nothing is lost or made up

  /** What all the threads carry. */
  ghost function InHand(ats: seq<At>, w: Way): (items: multiset<int>) {
    if ats == [] then multiset{} else multiset(Carried(w, ats[0])) + InHand(ats[1..], w)
  }

  lemma {:induction false} InHandUpdate(ats: seq<At>, w: Way, t: nat, at: At)
    requires t < |ats|
    ensures InHand(ats[t := at], w) + multiset(Carried(w, ats[t])) == InHand(ats, w) + multiset(Carried(w, at))
  {
    hide Carried;
    if t == 0 {
      assert ats[0 := at][1..] == ats[1..];
    } else {
      InHandUpdate(ats[1..], w, t - 1, at);
      assert ats[t := at][1..] == ats[1..][t - 1 := at];
      var rest, one := InHand(ats[1..][t - 1 := at], w), multiset(Carried(w, ats[t]));
      assert InHand(ats[t := at], w) + one == multiset(Carried(w, ats[0])) + (rest + one);
    }
  }

  lemma {:induction false} InHandNone(ats: seq<At>, w: Way)
    requires forall t :: 0 <= t < |ats| ==> ats[t].Idle?
    ensures InHand(ats, w) == multiset{}
  {
    if ats != [] { InHandNone(ats[1..], w); }
  }

  lemma Weigh(a: seq<int>, b: seq<int>, c: seq<int>, d: seq<int>, m: multiset<int>, m': multiset<int>)
    requires a + b == c + d && m' + multiset(c) == m + multiset(b)
    ensures multiset(a) + m' == m + multiset(d)
  {
    assert multiset(a) + multiset(b) == multiset(a + b) == multiset(c) + multiset(d);
    forall x ensures (multiset(a) + m')[x] == (m + multiset(d))[x] {
      assert (m' + multiset(c))[x] == (m + multiset(b))[x];
      assert (multiset(a) + multiset(b))[x] == (multiset(c) + multiset(d))[x];
    }
  }

  lemma HandOne(s: State, e: Event, w: Way)
    requires Enabled(s, e)
    ensures multiset(Items(Mark(s, e, Last(w)))) + InHand(Next(s, e).at, w)
            == InHand(s.at, w) + multiset(Items(Mark(s, e, First(w))))
  {
    hide InHand, Of, Items, Next, Carried, Enabled, Mark;
    SameThreads(s, e);
    InHandUpdate(s.at, w, e.t, Next(s, e).at[e.t]);
    MarkOwn(s, e, w);
    Weigh(Items(Mark(s, e, Last(w))), Carried(w, Next(s, e).at[e.t]), Carried(w, s.at[e.t]),
          Items(Mark(s, e, First(w))), InHand(s.at, w), InHand(Next(s, e).at, w));
  }

  lemma Pour(a: multiset<int>, b: multiset<int>, c: multiset<int>, d: multiset<int>, e: multiset<int>,
             f: multiset<int>, g: multiset<int>)
    requires b + c == d + e && a + d == f + g
    ensures a + b + c == f + (g + e)
  {
    assert a + b + c == a + (b + c) == (a + d) + e;
  }

  lemma {:induction false} Hands(s: State, run: seq<Event>, s': State, w: Way)
    requires Run(s, run, s')
    ensures multiset(Items(Marks(s, run, s', Last(w)))) + InHand(s'.at, w)
            == InHand(s.at, w) + multiset(Items(Marks(s, run, s', First(w))))
    decreases |run|
  {
    if run != [] {
      hide Of, Items, Carried, Next, Enabled, Mark, Marks, First, Last, InHand;
      var e, n := run[0], Next(s, run[0]);
      HandOne(s, e, w);
      Hands(n, run[1..], s', w);
      MarksFirst(s, run, s', First(w), 0);
      MarksFirst(s, run, s', Last(w), 0);
      Pour(multiset(Items(Mark(s, e, Last(w)))), multiset(Items(Marks(n, run[1..], s', Last(w)))), InHand(s'.at, w),
           InHand(n.at, w), multiset(Items(Marks(n, run[1..], s', First(w)))), InHand(s.at, w),
           multiset(Items(Mark(s, e, First(w)))));
    }
  }

  /**
   The items handed to produce are those stored and those still on their way in; the items read are those returned by
   consume and those still on their way out.
   */
  lemma NothingLost(s: State, run: seq<Event>, s': State)
    requires Init(s) && Run(s, run, s')
    ensures multiset(Items(Marks(s, run, s', Given))) == multiset(s'.put) + InHand(s'.at, In)
    ensures multiset(s'.got) == multiset(Items(Marks(s, run, s', Returned))) + InHand(s'.at, Out)
  {
    hide Items, Marks, InHand;
    assert First(In) == Given && Last(In) == Entered && First(Out) == Taken && Last(Out) == Returned;
    assert [] + Items(Marks(s, run, s', Entered)) == Items(Marks(s, run, s', Entered));
    assert [] + Items(Marks(s, run, s', Taken)) == Items(Marks(s, run, s', Taken));
    Hands(s, run, s', In);
    Hands(s, run, s', Out);
    InHandNone(s.at, In);
    InHandNone(s.at, Out);
    Records(s, run, s');
  }

  // ----- the three semaphores

  datatype Sem = Mutex | Empty | Full

  function Value(s: State, x: Sem): (v: int) {
    match x case Mutex => s.mutex case Empty => s.empty case Full => s.full
  }

  /** What an event does to semaphore `x`. */
  function Effect(s: State, e: Event, x: Sem): (ops: seq<Semaphore.Op>)
    requires Enabled(s, e)
  {
    match e
    case Produce(t, _) => if x.Empty? then [Semaphore.P(t)] else []
    case Consume(t) => if x.Full? then [Semaphore.P(t)] else []
    case Step(t) =>
      var at := s.at[t];
      if x.Mutex? && (at.P1? || at.C1?) then [Semaphore.P(t)]
      else if (x.Mutex? && (at.P4? || at.C4?)) || (x.Full? && at.P5?) || (x.Empty? && at.C5?) then [Semaphore.V(t)]
      else []
  }

  ghost function Trace(s: State, run: seq<Event>, s': State, x: Sem): (ops: seq<Semaphore.Op>)
    requires Run(s, run, s')
    decreases |run|
  {
    if run == [] then [] else Effect(s, run[0], x) + Trace(Next(s, run[0]), run[1..], s', x)
  }

  lemma OneEvent(s: State, e: Event, x: Sem, rest: seq<Semaphore.Op>, v: int)
    requires Enabled(s, e) && Semaphore.Atomic(Value(Next(s, e), x), rest, v)
    ensures Semaphore.Atomic(Value(s, x), Effect(s, e, x) + rest, v)
  {
    var ops := Effect(s, e, x);
    assert (ops + rest)[|ops|..] == rest;
    if ops == [] { assert ops + rest == rest; }
  }

  /** Each of the three is used as a run of Semaphore's atomic counter uses it. */
  lemma {:induction false} OverSemaphores(s: State, run: seq<Event>, s': State, x: Sem)
    requires Run(s, run, s')
    ensures Semaphore.Atomic(Value(s, x), Trace(s, run, s', x), Value(s', x))
    decreases |run|
  {
    hide Effect, Next, Semaphore.Atomic;
    if run == [] {
      Semaphore.AtomicNone(Value(s, x));
    } else {
      OverSemaphores(Next(s, run[0]), run[1..], s', x);
      OneEvent(s, run[0], x, Trace(Next(s, run[0]), run[1..], s', x), Value(s', x));
    }
  }

  // ----- over the library's semaphores

  /** What an idle thread is about to do. */
  datatype Intent = Undecided | Put(item: int) | Get

  datatype Program = Program(p: State, intent: seq<Intent>)

  function Wants(c: Program, t: nat): (w: SemaphoreClient.Want<Sem>) {
    if t >= |c.p.at| || t >= |c.intent| then SemaphoreClient.Local
    else
      match c.p.at[t]
      case Idle =>
        if c.intent[t].Put? then SemaphoreClient.Down(Empty)
        else if c.intent[t].Get? then SemaphoreClient.Down(Full)
        else SemaphoreClient.Local
      case P1(_) => SemaphoreClient.Down(Mutex)
      case C1 => SemaphoreClient.Down(Mutex)
      case P4 => SemaphoreClient.Up(Mutex)
      case C4(_) => SemaphoreClient.Up(Mutex)
      case P5 => SemaphoreClient.Up(Full)
      case C5(_) => SemaphoreClient.Up(Empty)
      case _ => SemaphoreClient.Local
  }

  function EventOf(c: Program, t: nat): (e: Event)
    requires t < |c.p.at| && t < |c.intent|
  {
    if !c.p.at[t].Idle? then Step(t) else if c.intent[t].Put? then Produce(t, c.intent[t].item) else Consume(t)
  }

  /** An undecided thread chooses what to do next; any other does it. */
  function Advance(c: Program, t: nat, arg: int): (r: Program) {
    if t >= |c.p.at| || t >= |c.intent| then c
    else if c.p.at[t].Idle? && c.intent[t].Undecided? then
      c.(intent := c.intent[t := if arg % 2 == 0 then Put(arg / 2) else Get])
    else if Enabled(c.p, EventOf(c, t)) then Program(Next(c.p, EventOf(c, t)), c.intent[t := Undecided])
    else c
  }

  ghost predicate ProgramInv(c: Program, threads: nat) {
    && Inv(c.p) && |c.p.at| == |c.intent| == threads
    && forall t :: 0 <= t < threads && !c.p.at[t].Idle? ==> c.intent[t].Undecided?
  }

  ghost function Client(threads: nat): (cl: SemaphoreClient.Client<Program, Sem>) {
    SemaphoreClient.Client({Mutex, Empty, Full}, threads, Wants, Advance, (c: Program, x) => Value(c.p, x),
                           c => ProgramInv(c, threads))
  }

  /** The indices are in the buffer, so that a thread whose semaphore lets it can go on. */
  lemma CanAdvance(c: Program, threads: nat, t: nat)
    requires ProgramInv(c, threads) && SemaphoreClient.CanGo(Client(threads), c, t)
    ensures (c.p.at[t].Idle? && c.intent[t].Undecided?) || Enabled(c.p, EventOf(c, t))
  {
  }

  lemma ValueAdvances(c: Program, t: nat, arg: int, x: Sem)
    requires t < |c.p.at| && t < |c.intent|
    requires (c.p.at[t].Idle? && c.intent[t].Undecided?) || Enabled(c.p, EventOf(c, t))
    ensures Value(Advance(c, t, arg).p, x) == Value(c.p, x) + SemaphoreClient.Change(Wants(c, t), x)
  {
  }

  lemma OthersWait(c: Program, t: nat, arg: int, u: nat)
    requires u != t
    ensures Wants(Advance(c, t, arg), u) == Wants(c, u)
  {
  }

  lemma InvAdvances(threads: nat, c: Program, t: nat, arg: int)
    requires ProgramInv(c, threads) && t < threads
    requires (c.p.at[t].Idle? && c.intent[t].Undecided?) || Enabled(c.p, EventOf(c, t))
    ensures ProgramInv(Advance(c, t, arg), threads)
  {
    hide Inv;
    if !(c.p.at[t].Idle? && c.intent[t].Undecided?) {
      hide Next, Enabled;
      InvNext(c.p, EventOf(c, t));
      SameThreads(c.p, EventOf(c, t));
    }
  }

  lemma StepOk(threads: nat, c: Program, t: nat, arg: int)
    ensures SemaphoreClient.StepOk(Client(threads), c, t, arg)
  {
    hide Inv, Value, Wants, Advance, SemaphoreClient.Change, Enabled;
    if ProgramInv(c, threads) && SemaphoreClient.CanGo(Client(threads), c, t) {
      CanAdvance(c, threads, t);
      InvAdvances(threads, c, t, arg);
      forall x ensures Value(Advance(c, t, arg).p, x) == Value(c.p, x) + SemaphoreClient.Change(Wants(c, t), x) {
        ValueAdvances(c, t, arg, x);
      }
      forall u: nat | u != t ensures Wants(Advance(c, t, arg), u) == Wants(c, u) { OthersWait(c, t, arg, u); }
    }
  }

  lemma Sound(threads: nat)
    ensures SemaphoreClient.Sound(Client(threads))
  {
    var cl := Client(threads);
    forall c, t: nat, arg ensures SemaphoreClient.StepOk(cl, c, t, arg) { StepOk(threads, c, t, arg); }
    hide SemaphoreClient.StepOk, Inv;
  }

  /** What a step of the program means to thread `t`: an item it chooses to produce, or one that consume returns. */
  function Chosen(c: Program, step: (nat, int), t: nat): (items: seq<int>)
    requires t < |c.p.at| && t < |c.intent|
  {
    if step.0 == t && c.p.at[t].Idle? && c.intent[t].Undecided? && step.1 % 2 == 0 then [step.1 / 2] else []
  }

  function Back(c: Program, step: (nat, int), t: nat): (items: seq<int>)
    requires t < |c.p.at|
  {
    if step.0 == t && c.p.at[t].C5? then [c.p.at[t].item] else []
  }

  function Meant(i: Intent): (items: seq<int>) { if i.Put? then [i.item] else [] }

  /** The items a thread chooses to produce, and those that consume returns to it, in the steps of the program. */
  ghost function Choices(c: Program, steps: seq<(nat, int)>, t: nat): (items: seq<int>)
    decreases |steps|
  {
    if steps == [] || t >= |c.p.at| || t >= |c.intent| then []
    else Chosen(c, steps[0], t) + Choices(Advance(c, steps[0].0, steps[0].1), steps[1..], t)
  }

  ghost function Backs(c: Program, steps: seq<(nat, int)>, t: nat): (items: seq<int>)
    decreases |steps|
  {
    if steps == [] || t >= |c.p.at| then []
    else Back(c, steps[0], t) + Backs(Advance(c, steps[0].0, steps[0].1), steps[1..], t)
  }

  /** What the steps mean to `t` is what the events of the run do for it. */
  ghost predicate SameItems(c: Program, steps: seq<(nat, int)>, c': Program, run: seq<Event>, t: nat) {
    && Run(c.p, run, c'.p) && t < |c.intent| && t < |c'.intent|
    && Meant(c.intent[t]) + Choices(c, steps, t) == Of(Marks(c.p, run, c'.p, Given), t) + Meant(c'.intent[t])
    && Backs(c, steps, t) == Of(Marks(c.p, run, c'.p, Returned), t)
  }

  lemma ChoiceItems(threads: nat, c: Program, step: (nat, int), t: nat)
    requires ProgramInv(c, threads) && step.0 < threads && t < threads
    requires c.p.at[step.0].Idle? && c.intent[step.0].Undecided?
    ensures Meant(c.intent[t]) + Chosen(c, step, t) == Meant(Advance(c, step.0, step.1).intent[t])
    ensures Back(c, step, t) == [] && Advance(c, step.0, step.1).p == c.p
  {
    hide Inv;
  }

  lemma EventItems(threads: nat, c: Program, step: (nat, int), t: nat)
    requires ProgramInv(c, threads) && step.0 < threads && t < threads
    requires !(c.p.at[step.0].Idle? && c.intent[step.0].Undecided?) && Enabled(c.p, EventOf(c, step.0))
    ensures Meant(c.intent[t]) + Chosen(c, step, t)
            == Of(Mark(c.p, EventOf(c, step.0), Given), t) + Meant(Advance(c, step.0, step.1).intent[t])
    ensures Back(c, step, t) == Of(Mark(c.p, EventOf(c, step.0), Returned), t)
  {
    hide Inv, Of, Items, Next;
    OfOne(Mark(c.p, EventOf(c, step.0), Given), t);
    OfOne(Mark(c.p, EventOf(c, step.0), Returned), t);
  }

  lemma ItemsFirst(threads: nat, c: Program, steps: seq<(nat, int)>, c': Program, rest: seq<Event>, t: nat)
    requires ProgramInv(c, threads) && steps != [] && t < threads && steps[0].0 < threads
    requires (c.p.at[steps[0].0].Idle? && c.intent[steps[0].0].Undecided?) || Enabled(c.p, EventOf(c, steps[0].0))
    requires SameItems(Advance(c, steps[0].0, steps[0].1), steps[1..], c', rest, t)
    ensures SameItems(c, steps, c', EventsOf(c, steps[0].0) + rest, t)
  {
    hide Inv, Of, Items, Next, Mark, Meant, Chosen, Back, Enabled, Advance;
    var step := steps[0];
    var n := Advance(c, step.0, step.1);
    if c.p.at[step.0].Idle? && c.intent[step.0].Undecided? {
      ChoiceItems(threads, c, step, t);
      assert EventsOf(c, step.0) + rest == rest;
      Joined(Meant(c.intent[t]), Chosen(c, step, t), Choices(n, steps[1..], t));
      assert [] + Backs(n, steps[1..], t) == Backs(n, steps[1..], t);
    } else {
      EventItems(threads, c, step, t);
      var e := EventOf(c, step.0);
      assert ([e] + rest)[1..] == rest;
      AdvanceNext(c, step.0, step.1);
      MarksFirst(c.p, [e] + rest, c'.p, Given, t);
      MarksFirst(c.p, [e] + rest, c'.p, Returned, t);
      Swap(Meant(c.intent[t]), Chosen(c, step, t), Choices(n, steps[1..], t), Of(Mark(c.p, e, Given), t),
           Meant(n.intent[t]), Of(Marks(n.p, rest, c'.p, Given), t), Meant(c'.intent[t]));
    }
  }

  lemma Swap(a: seq<int>, b: seq<int>, c: seq<int>, d: seq<int>, e: seq<int>, f: seq<int>, g: seq<int>)
    requires a + b == d + e && e + c == f + g
    ensures a + (b + c) == d + f + g
  {
    assert a + (b + c) == (a + b) + c == d + (e + c) == d + (f + g);
  }

  lemma AdvanceNext(c: Program, t: nat, arg: int)
    requires t < |c.p.at| && t < |c.intent| && !(c.p.at[t].Idle? && c.intent[t].Undecided?)
    requires Enabled(c.p, EventOf(c, t))
    ensures Advance(c, t, arg).p == Next(c.p, EventOf(c, t))
  {
  }

  /** The event of a step of the program; choosing what to do is none. */
  function EventsOf(c: Program, t: nat): (events: seq<Event>)
    requires t < |c.p.at| && t < |c.intent|
  {
    if c.p.at[t].Idle? && c.intent[t].Undecided? then [] else [EventOf(c, t)]
  }

  /** The program with atomic semaphores is the one studied above, and the items are the same. */
  lemma {:induction false} AtomicIsRun(threads: nat, c: Program, steps: seq<(nat, int)>, c': Program)
      returns (run: seq<Event>)
    requires ProgramInv(c, threads) && SemaphoreClient.AtomicRun(Client(threads), c, steps, c')
    ensures Run(c.p, run, c'.p) && |c'.p.at| == |c'.intent| == threads
    ensures forall t: nat :: t < threads ==> SameItems(c, steps, c', run, t)
    decreases |steps|
  {
    if steps == [] {
      run := [];
    } else {
      var t, next := steps[0].0, Advance(c, steps[0].0, steps[0].1);
      CanAdvance(c, threads, t);
      InvAdvances(threads, c, t, steps[0].1);
      var rest := AtomicIsRun(threads, next, steps[1..], c');
      run := EventsOf(c, t) + rest;
      hide Inv, SameItems, Advance, Enabled, Next;
      RunFirst(threads, c, t, steps[0].1, rest, c');
      forall u: nat | u < threads ensures SameItems(c, steps, c', run, u) {
        ItemsFirst(threads, c, steps, c', rest, u);
      }
    }
  }

  lemma RunFirst(threads: nat, c: Program, t: nat, arg: int, rest: seq<Event>, c': Program)
    requires ProgramInv(c, threads) && t < threads && Run(Advance(c, t, arg).p, rest, c'.p)
    requires (c.p.at[t].Idle? && c.intent[t].Undecided?) || Enabled(c.p, EventOf(c, t))
    ensures Run(c.p, EventsOf(c, t) + rest, c'.p)
  {
    hide Inv, Next, Enabled;
    if c.p.at[t].Idle? && c.intent[t].Undecided? {
      assert EventsOf(c, t) + rest == rest;
    } else {
      assert ([EventOf(c, t)] + rest)[1..] == rest;
    }
  }

  /** The program over the library's semaphores is at every moment where a run of the one above can be. */
  lemma OverLibrary(threads: nat, s: SemaphoreClient.State<Program, Sem>, run: seq<SemaphoreClient.Event<Sem>>,
                    s': SemaphoreClient.State<Program, Sem>) returns (abs: seq<Event>)
    requires Init(s.c.p) && SemaphoreClient.Init(Client(threads), s) && SemaphoreClient.Run(Client(threads), s, run, s')
    ensures Run(s.c.p, abs, s'.c.p) && SemaphoreClient.Inv(Client(threads), s')
    ensures |s'.c.p.at| == |s.c.p.at| == |s'.c.intent| == |s.c.intent| == threads
    ensures forall t: nat :: t < threads ==>
              SameItems(s.c, SemaphoreClient.Trace(Client(threads), s, run, s'), s'.c, abs, t)
  {
    var cl := Client(threads);
    Sound(threads);
    SemaphoreClient.InitInv(cl, s);
    SemaphoreClient.Refines(cl, s, run, s');
    abs := AtomicIsRun(threads, s.c, SemaphoreClient.Trace(cl, s, run, s'), s'.c);
    hide SameItems, Inv;
  }

  /**
   What went in and came out, down to the futex steps: `put` holds, thread by thread and in order, the items the
   threads chose to produce, but for those chosen or carried and not yet stored; and `got` those consume returned,
   but for those read and not yet returned.
   */
  lemma LibraryItems(threads: nat, s: SemaphoreClient.State<Program, Sem>, run: seq<SemaphoreClient.Event<Sem>>,
                     s': SemaphoreClient.State<Program, Sem>) returns (stored: seq<(nat, int)>, taken: seq<(nat, int)>)
    requires Init(s.c.p) && SemaphoreClient.Init(Client(threads), s) && SemaphoreClient.Run(Client(threads), s, run, s')
    ensures s'.c.p.put == Items(stored) && s'.c.p.got == Items(taken)
    ensures |s'.c.p.at| == |s'.c.intent| == |s.c.intent| == threads
    ensures forall t: nat :: t < threads ==>
              var steps := SemaphoreClient.Trace(Client(threads), s, run, s');
              && Meant(s.c.intent[t]) + Choices(s.c, steps, t)
                 == Of(stored, t) + Carried(In, s'.c.p.at[t]) + Meant(s'.c.intent[t])
              && Of(taken, t) == Backs(s.c, steps, t) + Carried(Out, s'.c.p.at[t])
  {
    hide SemaphoreClient.Run, SemaphoreClient.Init, Items, Of, Marks, Carried, Meant, Choices, Backs, Run;
    var abs := OverLibrary(threads, s, run, s');
    stored, taken := Marks(s.c.p, abs, s'.c.p, Entered), Marks(s.c.p, abs, s'.c.p, Taken);
    hide SemaphoreClient.Inv, Inv;
    ghost var steps := SemaphoreClient.Trace(Client(threads), s, run, s');
    forall t: nat | t < threads
      ensures && Meant(s.c.intent[t]) + Choices(s.c, steps, t)
                 == Of(stored, t) + Carried(In, s'.c.p.at[t]) + Meant(s'.c.intent[t])
              && Of(taken, t) == Backs(s.c, steps, t) + Carried(Out, s'.c.p.at[t])
    {
      assert SameItems(s.c, steps, s'.c, abs, t);
      Carries(s.c.p, abs, s'.c.p, t);
    }
    Records(s.c.p, abs, s'.c.p);
    assert [] + Items(stored) == Items(stored) && [] + Items(taken) == Items(taken);
  }

  /** Provenance, in the words of Carried. */
  lemma Carries(s: State, run: seq<Event>, s': State, t: nat)
    requires Init(s) && Run(s, run, s') && t < |s.at|
    ensures t < |s'.at| && Of(Marks(s, run, s', Given), t) == Of(Marks(s, run, s', Entered), t) + Carried(In, s'.at[t])
    ensures Of(Marks(s, run, s', Taken), t) == Of(Marks(s, run, s', Returned), t) + Carried(Out, s'.at[t])
  {
    hide Of, Items, Marks;
    Provenance(s, run, s', t);
  }

  /** First in, first out, and one thread at the buffer, down to the futex steps of the semaphores. */
  lemma LibraryFifo(threads: nat, s: SemaphoreClient.State<Program, Sem>, run: seq<SemaphoreClient.Event<Sem>>,
                    s': SemaphoreClient.State<Program, Sem>, t: nat, u: nat)
    requires Init(s.c.p) && SemaphoreClient.Init(Client(threads), s) && SemaphoreClient.Run(Client(threads), s, run, s')
    ensures s'.c.p.got <= s'.c.p.put && 0 <= |s'.c.p.put| - |s'.c.p.got| <= |s.c.p.buffer|
    ensures t < |s'.c.p.at| && u < |s'.c.p.at| && Inside(s'.c.p.at[t]) && Inside(s'.c.p.at[u]) ==> t == u
  {
    var abs := OverLibrary(threads, s, run, s');
    hide SemaphoreClient.Run, SemaphoreClient.Init;
    Fifo(s.c.p, abs, s'.c.p);
    if t < |s'.c.p.at| && u < |s'.c.p.at| && Inside(s'.c.p.at[t]) && Inside(s'.c.p.at[u]) {
      OneInside(s.c.p, abs, s'.c.p, t, u);
    }
  }

  lemma StepCanGo(threads: nat, s: SemaphoreClient.State<Program, Sem>, t: nat)
    requires SemaphoreClient.Inv(Client(threads), s) && Enabled(s.c.p, Step(t))
    ensures SemaphoreClient.CanGo(Client(threads), s.c, t)
  {
    hide Inv;
  }

  /** While a thread is in the middle of a call, or wants an item or a slot that is there, some thread can go on. */
  lemma LibraryNoDeadlock(threads: nat, s: SemaphoreClient.State<Program, Sem>, run: seq<SemaphoreClient.Event<Sem>>,
                          s': SemaphoreClient.State<Program, Sem>, t: nat) returns (e: SemaphoreClient.Event<Sem>)
    requires Init(s.c.p) && SemaphoreClient.Init(Client(threads), s) && SemaphoreClient.Run(Client(threads), s, run, s')
    requires t < threads && t < |s'.c.p.at|
    requires !s'.c.p.at[t].Idle? || SemaphoreClient.CanGo(Client(threads), s'.c, t)
    ensures SemaphoreClient.Enabled(Client(threads), s', e) && (e.Inner? ==> Semaphore.Program(e.e))
  {
    hide Inv, SemaphoreClient.Inv, SemaphoreClient.Run, SemaphoreClient.Init, SemaphoreClient.Enabled, Enabled;
    hide SemaphoreClient.CanGo, SemaphoreClient.Sound;
    var abs := OverLibrary(threads, s, run, s');
    var u := t;
    if !s'.c.p.at[t].Idle? {
      var e' := NoDeadlock(s.c.p, abs, s'.c.p, t);
      u := e'.t;
      StepCanGo(threads, s', u);
    }
    Sound(threads);
    e := SemaphoreClient.GoesOn(Client(threads), s', u);
  }
}
