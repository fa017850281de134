/**
 Log space reservation in xv6-riscv/kernel/log.c: any number of file system operations,
 each between begin_op and end_op, share the log. Every event below runs under log.lock.
 */
module LogSpace {
  import opened Counting

  /** LOGBLOCKS and MAXOPBLOCKS. */
  datatype Params = Params(cap: nat, max: nat)

  ghost predicate ParamsOk(p: Params) {
    0 < p.max <= p.cap
  }

  /** `left[t]` is how many more blocks operation t, still outstanding, may append. */
  datatype State = State(lh: seq<nat>, left: map<int, nat>, committing: bool, asleep: set<int>)

  datatype Event =
    | Begin(t: int)            // one pass through the loop of begin_op
    | Write(t: int, b: nat)    // log_write
    | End(t: int)              // end_op up to the start of commit
    | Done                     // commit is over

  function Init(): (s: State) {
    State([], map[], false, {})
  }

  /** The test of begin_op. */
  predicate Admits(p: Params, n: nat, outstanding: nat, committing: bool) {
    !committing && n + (outstanding + 1) * p.max <= p.cap
  }

  /** The two panics of log_write. */
  predicate WritePanics(p: Params, n: nat, outstanding: nat) {
    n >= p.cap || outstanding < 1
  }

  /** What the callers promise: operations are bracketed, and append at most `max` blocks each. */
  ghost predicate Enabled(p: Params, s: State, e: Event) {
    match e
    case Begin(t) => t !in s.left && t !in s.asleep
    case Write(t, b) => t in s.left && (b !in s.lh ==> s.left[t] > 0)
    case End(t) => t in s.left
    case Done => s.committing
  }

  ghost predicate Panics(p: Params, s: State, e: Event) {
    match e
    case Begin(t) => false
    case Write(t, b) => WritePanics(p, |s.lh|, |s.left|)
    case End(t) => s.committing
    case Done => false
  }

  ghost function Next(p: Params, s: State, e: Event): (s': State)
    requires Enabled(p, s, e)
  {
    match e
    case Begin(t) =>
      if Admits(p, |s.lh|, |s.left|, s.committing) then s.(left := s.left[t := p.max])
      else s.(asleep := s.asleep + {t})
    case Write(t, b) =>
      if b in s.lh then s else s.(lh := s.lh + [b], left := s.left[t := s.left[t] - 1])
    case End(t) =>
      var rest := s.left - {t};
      if rest == map[] then s.(left := rest, committing := true) else s.(left := rest, asleep := {})
    case Done =>
      s.(lh := [], committing := false, asleep := {})
  }

  ghost predicate DistinctBlocks(lh: seq<nat>) {
    forall i, j :: 0 <= i < j < |lh| ==> lh[i] != lh[j]
  }

  /** The log plus what the outstanding operations may still append fits. */
  ghost predicate Reserved(p: Params, s: State) {
    |s.lh| + Sum(s.left) <= p.cap
  }

  ghost predicate Inv(p: Params, s: State) {
    && Reserved(p, s)
    && DistinctBlocks(s.lh)
    && (forall t :: t in s.left ==> s.left[t] <= p.max)
    && (s.committing ==> s.left == map[])
    && (!s.committing && s.left == map[] ==> s.lh == [])
    && (s.asleep != {} ==> !Admits(p, |s.lh|, |s.left|, s.committing))
  }

  lemma {:induction false} SumBound(m: map<int, nat>, max: nat)
    requires forall t :: t in m ==> m[t] <= max
    ensures Sum(m) <= |m| * max
    decreases |m|
  {
    if m.Keys != {} {
      var k := Pick(m.Keys);
      var rest := m - {k};
      Smaller(m, k);
      SumWithout(m, k);
      SumBound(rest, max);
      MulNext(|rest|, max);
    }
  }

  lemma InvBegin(p: Params, s: State, t: int)
    requires ParamsOk(p) && Inv(p, s) && Enabled(p, s, Begin(t))
    ensures Inv(p, Next(p, s, Begin(t)))
  {
    if Admits(p, |s.lh|, |s.left|, s.committing) {
      SumUpdate(s.left, t, p.max);
      SumBound(s.left, p.max);
      MulNext(|s.left|, p.max);
    }
  }

  lemma InvWrite(p: Params, s: State, t: int, b: nat)
    requires ParamsOk(p) && Inv(p, s) && Enabled(p, s, Write(t, b))
    ensures Inv(p, Next(p, s, Write(t, b)))
  {
    if b !in s.lh {
      SumUpdate(s.left, t, s.left[t] - 1);
      assert s.left[t := s.left[t] - 1].Keys == s.left.Keys;
    }
  }

  lemma InvEnd(p: Params, s: State, t: int)
    requires ParamsOk(p) && Inv(p, s) && Enabled(p, s, End(t))
    ensures Inv(p, Next(p, s, End(t)))
  {
    SumWithout(s.left, t);
  }

  /** Every event keeps the invariant. */
  lemma InvNext(p: Params, s: State, e: Event)
    requires ParamsOk(p) && Inv(p, s) && Enabled(p, s, e)
    ensures Inv(p, Next(p, s, e))
  {
    match e
    case Begin(t) => InvBegin(p, s, t);
    case Write(t, b) => InvWrite(p, s, t, b);
    case End(t) => InvEnd(p, s, t);
    case Done => assert s.left == map[];
  }

  /**
   When an event can panic: end_op never does, and log_write does exactly when the log is full,
   which leaves only a write of a block already logged.
   */
  lemma PanicsExactly(p: Params, s: State, e: Event)
    requires ParamsOk(p) && Inv(p, s) && Enabled(p, s, e)
    ensures Panics(p, s, e) <==> e.Write? && |s.lh| == p.cap
    ensures Panics(p, s, e) ==> e.b in s.lh
  {
    if e.Write? {
      SumWithout(s.left, e.t);
      assert |s.left| >= 1 by { assert s.left.Keys != {}; }
    }
  }

  // ----- runs

  ghost predicate Run(p: Params, s: State, es: seq<Event>)
    decreases |es|
  {
    es == [] || (Enabled(p, s, es[0]) && Run(p, Next(p, s, es[0]), es[1..]))
  }

  ghost function After(p: Params, s: State, es: seq<Event>): (s': State)
    requires Run(p, s, es)
    decreases |es|
  {
    if es == [] then s else After(p, Next(p, s, es[0]), es[1..])
  }

  lemma {:induction false} InvRun(p: Params, s: State, es: seq<Event>)
    requires ParamsOk(p) && Inv(p, s) && Run(p, s, es)
    ensures Inv(p, After(p, s, es))
    decreases |es|
  {
    if es != [] {
      InvNext(p, s, es[0]);
      InvRun(p, Next(p, s, es[0]), es[1..]);
    }
  }

  /**
   Log space: after every run from boot an append finds room, a header being committed has no
   operation that could change it, and a thread asleep in begin_op has somebody left to wake it.
   */
  lemma LogSpaceSafe(p: Params, es: seq<Event>)
    requires ParamsOk(p) && Run(p, Init(), es)
    ensures var s := After(p, Init(), es);
            && Reserved(p, s) && DistinctBlocks(s.lh)
            && (s.committing ==> s.left == map[])
            && (s.asleep != {} ==> s.committing || s.left != map[])
            && (forall t, b :: Enabled(p, s, Write(t, b)) && b !in s.lh ==> !Panics(p, s, Write(t, b)))
  {
    var s := After(p, Init(), es);
    InvRun(p, Init(), es);
    forall t, b | Enabled(p, s, Write(t, b)) && b !in s.lh ensures !Panics(p, s, Write(t, b)) {
      PanicsExactly(p, s, Write(t, b));
    }
    if !s.committing && s.left == map[] {
      assert (|s.left| + 1) * p.max == p.max;
      assert Admits(p, |s.lh|, |s.left|, s.committing);
    }
  }

  /** A full log is reachable when LOGBLOCKS is a multiple of MAXOPBLOCKS, and then an absorbed write panics. */
  lemma FullLogPanics(p: Params, ops: nat)
    requires ParamsOk(p) && ops > 0 && p.cap == ops * p.max
    ensures exists es, t, b :: && Run(p, Init(), es) && Enabled(p, After(p, Init(), es), Write(t, b))
                               && Panics(p, After(p, Init(), es), Write(t, b))
  {
    var es := Filling(p, ops, p.cap);
    var s := After(p, Init(), es);
    var t := Pick(s.left.Keys);
    assert s.lh[0] in s.lh;
    assert Enabled(p, s, Write(t, s.lh[0]));
    assert Panics(p, s, Write(t, s.lh[0]));
  }

  lemma {:induction false} RunSnoc(p: Params, s: State, es: seq<Event>, e: Event)
    requires Run(p, s, es) && Enabled(p, After(p, s, es), e)
    ensures Run(p, s, es + [e]) && After(p, s, es + [e]) == Next(p, After(p, s, es), e)
    decreases |es|
  {
    var all := es + [e];
    if es == [] {
      assert all == [e] && all[1..] == [];
    } else {
      RunSnoc(p, Next(p, s, es[0]), es[1..], e);
      assert all[1..] == es[1..] + [e];
    }
  }

  /** Blocks 0 to n-1 are logged and the `ops` outstanding operations may still append `left` in all. */
  ghost predicate Filled(s: State, ops: nat, n: nat, left: nat) {
    && |s.lh| == n && (forall i :: 0 <= i < n ==> s.lh[i] < n)
    && s.asleep == {} && !s.committing
    && |s.left| == ops && (forall t :: t in s.left ==> t < ops) && Sum(s.left) == left
  }

  /** A run in which `ops` operations start, and then append `n` different blocks between them. */
  ghost function Filling(p: Params, ops: nat, n: nat): (es: seq<Event>)
    requires ParamsOk(p) && n <= ops * p.max <= p.cap
    ensures Run(p, Init(), es)
    ensures Filled(After(p, Init(), es), ops, n, ops * p.max - n)
    decreases ops, n
  {
    if n > 0 then
      var es := Filling(p, ops, n - 1);
      var s := After(p, Init(), es);
      var e := FillOneMore(p, s, ops, n - 1);
      RunSnoc(p, Init(), es, e);
      es + [e]
    else if ops > 0 then
      MulNext(ops - 1, p.max);
      var es := Filling(p, ops - 1, 0);
      RunSnoc(p, Init(), es, Begin(ops - 1));
      AdmitOneMore(p, After(p, Init(), es), ops - 1);
      es + [Begin(ops - 1)]
    else
      []
  }

  lemma AdmitOneMore(p: Params, s: State, ops: nat)
    requires Filled(s, ops, 0, ops * p.max) && (ops + 1) * p.max <= p.cap
    ensures Enabled(p, s, Begin(ops))
    ensures Filled(Next(p, s, Begin(ops)), ops + 1, 0, (ops + 1) * p.max)
  {
    assert ops !in s.left;
    SumUpdate(s.left, ops, p.max);
    MulNext(ops, p.max);
  }

  ghost function FillOneMore(p: Params, s: State, ops: nat, n: nat): (e: Event)
    requires n < ops * p.max && Filled(s, ops, n, ops * p.max - n)
    ensures Enabled(p, s, e) && Filled(Next(p, s, e), ops, n + 1, ops * p.max - n - 1)
  {
    var t := Spender(s.left);
    SumUpdate(s.left, t, s.left[t] - 1);
    assert n !in s.lh;
    assert s.left[t := s.left[t] - 1].Keys == s.left.Keys;
    Write(t, n)
  }

  ghost function Spender(left: map<int, nat>): (t: int)
    requires Sum(left) > 0
    ensures t in left && left[t] > 0
  {
    assert exists t :: t in left && left[t] > 0 by { var t := SumPositive(left); }
    var t :| t in left && left[t] > 0;
    t
  }

  // ----- what begin_op refuses

  /**
   A run of appends, which is to say of log_writes of blocks not yet in the log, that ends in the panic for a
   transaction too big: all but the last find room.
   */
  ghost predicate Bursts(p: Params, s: State, es: seq<Event>)
    decreases |es|
  {
    && es != [] && es[0].Write? && Enabled(p, s, es[0]) && es[0].b !in s.lh
    && if |es| == 1 then Panics(p, s, es[0]) else !Panics(p, s, es[0]) && Bursts(p, Next(p, s, es[0]), es[1..])
  }

  ghost predicate CanBurst(p: Params, s: State) {
    exists es :: Bursts(p, s, es)
  }

  lemma AppendOne(p: Params, s: State, t: int, b: nat)
    requires Enabled(p, s, Write(t, b)) && b !in s.lh
    ensures var n := Next(p, s, Write(t, b));
            |n.lh| == |s.lh| + 1 && Sum(n.left) == Sum(s.left) - 1 && n.left.Keys == s.left.Keys
  {
    SumUpdate(s.left, t, s.left[t] - 1);
  }

  lemma {:induction false} BurstFits(p: Params, s: State, es: seq<Event>)
    requires Bursts(p, s, es)
    ensures |s.lh| + Sum(s.left) > p.cap
    decreases |es|
  {
    var t, b := es[0].t, es[0].b;
    AppendOne(p, s, t, b);
    if |es| == 1 {
      assert |s.left| >= 1 by { assert t in s.left.Keys; }
    } else {
      BurstFits(p, Next(p, s, es[0]), es[1..]);
    }
  }

  /** A block that is not in the log. */
  ghost function Other(lh: seq<nat>): (b: nat)
    ensures b !in lh
  {
    var b := Over(lh);
    assert forall x :: x in lh ==> x < b;
    b
  }

  ghost function Over(lh: seq<nat>): (b: nat)
    ensures forall x :: x in lh ==> x < b
  {
    if lh == [] then 0 else
    var b := Over(lh[1..]);
    assert forall x :: x in lh ==> x == lh[0] || x in lh[1..];
    if b > lh[0] then b else lh[0] + 1
  }

  lemma {:induction false} Burst(p: Params, s: State) returns (es: seq<Event>)
    requires |s.lh| <= p.cap < |s.lh| + Sum(s.left)
    ensures Bursts(p, s, es)
    decreases p.cap - |s.lh|
  {
    var e := Write(Spender(s.left), Other(s.lh));
    AppendOne(p, s, e.t, e.b);
    assert |s.left| >= 1 by { assert e.t in s.left.Keys; }
    if |s.lh| == p.cap {
      es := [e];
    } else {
      var rest := Burst(p, Next(p, s, e));
      es := [e] + rest;
      assert es[1..] == rest;
    }
  }

  /** The outstanding operations can overrun the log exactly if what they may append is more than the room left. */
  lemma BurstsExactly(p: Params, s: State)
    requires |s.lh| <= p.cap
    ensures CanBurst(p, s) <==> |s.lh| + Sum(s.left) > p.cap
  {
    if es :| Bursts(p, s, es) { BurstFits(p, s, es); }
    if |s.lh| + Sum(s.left) > p.cap { var es := Burst(p, s); }
  }

  /** The same with writes of blocks already in the log among them, which panic too once it is full. */
  ghost predicate Breaks(p: Params, s: State, es: seq<Event>)
    decreases |es|
  {
    && es != [] && es[0].Write? && Enabled(p, s, es[0])
    && if |es| == 1 then Panics(p, s, es[0]) else !Panics(p, s, es[0]) && Breaks(p, Next(p, s, es[0]), es[1..])
  }

  ghost predicate CanBreak(p: Params, s: State) {
    exists es :: Breaks(p, s, es)
  }

  lemma {:induction false} BreakFills(p: Params, s: State, es: seq<Event>)
    requires Breaks(p, s, es)
    ensures s.left != map[] && |s.lh| + Sum(s.left) >= p.cap
    decreases |es|
  {
    var t, b := es[0].t, es[0].b;
    assert |s.left| >= 1 by { assert t in s.left.Keys; }
    if b !in s.lh { AppendOne(p, s, t, b); }
    if |es| > 1 { BreakFills(p, Next(p, s, es[0]), es[1..]); }
  }

  lemma {:induction false} Break(p: Params, s: State) returns (es: seq<Event>)
    requires 0 < p.cap && |s.lh| <= p.cap <= |s.lh| + Sum(s.left) && s.left != map[]
    ensures Breaks(p, s, es)
    decreases p.cap - |s.lh|
  {
    if |s.lh| == p.cap {
      var t := Pick(s.left.Keys);
      assert s.lh[0] in s.lh;
      es := [Write(t, s.lh[0])];
    } else {
      var e := Write(Spender(s.left), Other(s.lh));
      AppendOne(p, s, e.t, e.b);
      assert |s.left| >= 1 by { assert e.t in s.left.Keys; }
      var rest := Break(p, Next(p, s, e));
      es := [e] + rest;
      assert es[1..] == rest;
    }
  }

  /** Writes of any blocks can end in the panic exactly if the outstanding operations can fill the log. */
  lemma BreaksExactly(p: Params, s: State)
    requires 0 < p.cap && |s.lh| <= p.cap
    ensures CanBreak(p, s) <==> s.left != map[] && |s.lh| + Sum(s.left) >= p.cap
  {
    if es :| Breaks(p, s, es) { BreakFills(p, s, es); }
    if s.left != map[] && |s.lh| + Sum(s.left) >= p.cap { var es := Break(p, s); }
  }

  /** As far as begin_op knows: any operation, the new one included, may still append `max` blocks. */
  ghost function Worst(p: Params, s: State, t: int): (s': State) {
    s.(left := map u | u in s.left.Keys + {t} :: p.max)
  }

  /** As it is: the new operation may append `max` blocks, the others what they have left. */
  ghost function LetIn(p: Params, s: State, t: int): (s': State) {
    s.(left := s.left[t := p.max])
  }

  lemma {:induction false} SumSame(m: map<int, nat>, max: nat)
    requires forall t :: t in m ==> m[t] == max
    ensures Sum(m) == |m| * max
    decreases |m|
  {
    if m.Keys != {} {
      var k := Pick(m.Keys);
      Smaller(m, k);
      SumWithout(m, k);
      SumSame(m - {k}, max);
      MulNext(|m - {k}|, max);
    }
  }

  lemma SameSize<V, W>(m: map<int, V>, n: map<int, W>)
    requires m.Keys == n.Keys
    ensures |m| == |n|
  {
    assert |m| == |m.Keys| && |n| == |n.Keys|;
  }

  /**
   The refusal of begin_op, over runs: in every reachable state in which no commit is under way, a caller is put to
   sleep exactly if, were it let in, some run of appends within `max` blocks for each operation would overrun the log.
   */
  lemma RefusesExactly(p: Params, es: seq<Event>, t: int)
    requires ParamsOk(p) && Run(p, Init(), es)
    requires var s := After(p, Init(), es); !s.committing && Enabled(p, s, Begin(t))
    ensures var s := After(p, Init(), es);
            && (t in Next(p, s, Begin(t)).asleep <==> CanBurst(p, Worst(p, s, t)))
            && (t in Next(p, s, Begin(t)).asleep <==> Next(p, s, Begin(t)) != LetIn(p, s, t))
  {
    var s := After(p, Init(), es);
    InvRun(p, Init(), es);
    var w := Worst(p, s, t);
    SumSame(w.left, p.max);
    SameSize(w.left, s.left[t := 0]);
    assert |s.left[t := 0]| == |s.left| + 1;
    BurstsExactly(p, w);
  }

  /**
   Against what the operations really have left the test is too strict: with one more let in the log can be overrun
   exactly if it and what they may append do not fit, and filled exactly if they are no less; so the refusal is
   needless exactly in between.
   */
  lemma NeedlessExactly(p: Params, es: seq<Event>, t: int)
    requires ParamsOk(p) && Run(p, Init(), es)
    requires var s := After(p, Init(), es); !s.committing && Enabled(p, s, Begin(t))
    ensures var s := After(p, Init(), es);
            && (CanBurst(p, LetIn(p, s, t)) <==> |s.lh| + Sum(s.left) + p.max > p.cap)
            && (CanBreak(p, LetIn(p, s, t)) <==> |s.lh| + Sum(s.left) + p.max >= p.cap)
            && (CanBurst(p, LetIn(p, s, t)) ==> t in Next(p, s, Begin(t)).asleep)
            && (t in Next(p, s, Begin(t)).asleep && !CanBurst(p, LetIn(p, s, t)) <==>
                |s.lh| + Sum(s.left) + p.max <= p.cap < |s.lh| + (|s.left| + 1) * p.max)
  {
    var s := After(p, Init(), es);
    InvRun(p, Init(), es);
    SumUpdate(s.left, t, p.max);
    SumBound(s.left, p.max);
    MulNext(|s.left|, p.max);
    BurstsExactly(p, LetIn(p, s, t));
    BreaksExactly(p, LetIn(p, s, t));
  }

  /** Two operations, one of which has logged a block: a third has to wait though there is room for all three. */
  lemma NeedlessRefusal() returns (es: seq<Event>)
    ensures var p := Params(30, 10);
            && Run(p, Init(), es) && var s := After(p, Init(), es);
            && !s.committing && Enabled(p, s, Begin(2))
            && 2 in Next(p, s, Begin(2)).asleep && !CanBurst(p, LetIn(p, s, 2))
  {
    var p := Params(30, 10);
    es := [];
    RunSnoc(p, Init(), es, Begin(0));
    es := es + [Begin(0)];
    var s1 := After(p, Init(), es);
    assert s1 == State([], map[0 := 10], false, {});
    RunSnoc(p, Init(), es, Begin(1));
    es := es + [Begin(1)];
    var s2 := After(p, Init(), es);
    assert s2 == State([], map[0 := 10, 1 := 10], false, {});
    RunSnoc(p, Init(), es, Write(0, 0));
    es := es + [Write(0, 0)];
    var s := After(p, Init(), es);
    assert s == State([0], map[0 := 9, 1 := 10], false, {});
    SumUpdate(map[], 0, 9);
    SumUpdate(map[0 := 9], 1, 10);
    assert map[0 := 9][1 := 10] == s.left;
    NeedlessExactly(p, es, 2);
  }

  /** `ops` operations that may append `max` blocks each. */
  ghost function Fresh(lh: seq<nat>, ops: nat, max: nat): (s: State)
    ensures s.lh == lh && |s.left| == ops && forall t :: t in s.left <==> 0 <= t < ops
    ensures forall t :: t in s.left ==> s.left[t] == max
  {
    if ops == 0 then State(lh, map[], false, {})
    else var s := Fresh(lh, ops - 1, max); s.(left := s.left[ops - 1 := max])
  }

  /** The test of begin_op, for any log and any number of operations. */
  lemma AdmitsExactly(p: Params, lh: seq<nat>, outstanding: nat)
    requires |lh| <= p.cap
    ensures Admits(p, |lh|, outstanding, false) <==> !CanBurst(p, Fresh(lh, outstanding + 1, p.max))
  {
    var s := Fresh(lh, outstanding + 1, p.max);
    SumSame(s.left, p.max);
    BurstsExactly(p, s);
  }
}
