/** The multi-level feedback queue on one CPU: the scheduler's choice, the charge for a tick, and the boost. */
module Mlfq {

  const NPROC: nat := 64
  const NMLFQ: nat := 4
  const BOOST: nat := 100
  const SLICE: seq<nat> := [1, 2, 4, 8]
  const UINT: nat := 0x1_0000_0000

  datatype Status = Unused | Sleeping | Ready | Running

  datatype Proc = Proc(status: Status, pid: nat, pri: int, used: nat)

  /** The process table, the process on the CPU and the tick counter, which wraps at 32 bits. */
  datatype State = State(procs: seq<Proc>, cur: nat, ticks: nat)

  predicate InRange(p: Proc) {
    0 <= p.pri < NMLFQ && p.used < SLICE[p.pri]
  }

  // ----- what each piece of code does to the table

  /** mlfq_tick for one process. */
  function Charged(p: Proc): (r: Proc) {
    var pri := if p.pri < 0 then 0 else if p.pri >= NMLFQ then NMLFQ - 1 else p.pri;
    if p.used + 1 >= SLICE[pri]
    then p.(pri := if p.pri < NMLFQ - 1 then p.pri + 1 else p.pri, used := 0)
    else p.(used := p.used + 1)
  }

  /** mlfq_boost for one process. */
  function Lifted(p: Proc): (r: Proc) {
    if p.status.Unused? then p else p.(pri := 0, used := 0)
  }

  function Boosted(procs: seq<Proc>): (r: seq<Proc>)
    ensures |r| == |procs| && forall i :: 0 <= i < |r| ==> r[i] == Lifted(procs[i])
  {
    if procs == [] then [] else Boosted(procs[..|procs| - 1]) + [Lifted(procs[|procs| - 1])]
  }

  /** The first of the ready processes with the lowest priority number. */
  ghost predicate Chosen(procs: seq<Proc>, c: nat) {
    && c < |procs| && procs[c].status.Ready?
    && forall j :: 0 <= j < |procs| && procs[j].status.Ready? ==>
         procs[c].pri < procs[j].pri || (procs[c].pri == procs[j].pri && c <= j)
  }

  /** The table at a timer interrupt, up to the point where the scheduler looks at it. */
  function Interrupted(s: State): (r: seq<Proc>)
    requires s.cur < |s.procs|
  {
    var procs := if (s.ticks + 1) % UINT % BOOST == 0 then Boosted(s.procs) else s.procs;
    procs[s.cur := Charged(procs[s.cur]).(status := Ready)]
  }

  /** One charged tick: clockintr, mlfq_tick, yield, and the scheduler's next choice. */
  ghost predicate Round(s: State, s': State) {
    && s.cur < |s.procs| && s'.ticks == (s.ticks + 1) % UINT
    && Chosen(Interrupted(s), s'.cur)
    && s'.procs == Interrupted(s)[s'.cur := Interrupted(s)[s'.cur].(status := Running)]
  }

  /** A table of NPROC processes, one of them running, all priorities and charges in range. */
  ghost predicate Inv(s: State) {
    && |s.procs| == NPROC && s.cur < NPROC && s.ticks < UINT
    && (forall i :: 0 <= i < NPROC ==> InRange(s.procs[i]))
    && (forall i :: 0 <= i < NPROC ==> (s.procs[i].status.Running? <==> i == s.cur))
  }

  lemma InvRound(s: State, s': State)
    requires Inv(s) && Round(s, s')
    ensures Inv(s')
  {
  }

  lemma InRangeReady(p: Proc)
    requires InRange(p)
    ensures InRange(p.(status := Ready))
  {
  }

  // ----- the code itself

  class Scheduler {
    var procs: seq<Proc>
    var cur: int      // -1 when the CPU is idle
    var ticks: nat

    predicate Table()
      reads this
    {
      |procs| == NPROC && forall i :: 0 <= i < NPROC ==> InRange(procs[i])
    }

    constructor ()
      ensures Table() && cur == -1 && ticks == 0
    {
      procs, cur, ticks := seq(NPROC, i => Proc(Unused, 0, 0, 0)), -1, 0;
    }

    /** The loop of scheduler over the table. */
    method Choose() returns (chosen: int)
      requires Table()
      ensures chosen == -1 ==> forall j :: 0 <= j < NPROC ==> !procs[j].status.Ready?
      ensures chosen != -1 ==> chosen >= 0 && Chosen(procs, chosen)
    {
      chosen := -1;
      var chosenPri: int := NMLFQ;
      for p := 0 to NPROC
        invariant -1 <= chosen < p
        invariant chosen == -1 ==> chosenPri == NMLFQ && forall j :: 0 <= j < p ==> !procs[j].status.Ready?
        invariant chosen >= 0 ==> procs[chosen].status.Ready? && chosenPri == procs[chosen].pri
        invariant chosen >= 0 ==> forall j :: 0 <= j < p && procs[j].status.Ready? ==>
                    procs[chosen].pri < procs[j].pri || (procs[chosen].pri == procs[j].pri && chosen <= j)
      {
        if procs[p].status.Ready? && procs[p].pri < chosenPri {
          chosen, chosenPri := p, procs[p].pri;
        }
      }
    }

    method Schedule()
      requires Table()
      modifies this`procs, this`cur
      ensures Table()
      ensures cur == -1 ==> procs == old(procs) && forall j :: 0 <= j < NPROC ==> !procs[j].status.Ready?
      ensures cur != -1 ==> && cur >= 0 && Chosen(old(procs), cur)
                            && procs == old(procs)[cur := old(procs)[cur].(status := Running)]
    {
      cur := Choose();
      if cur != -1 { procs := procs[cur := procs[cur].(status := Running)]; }
    }

    method MlfqTick()
      requires Table() && -1 <= cur < NPROC
      modifies this`procs
      ensures Table() && procs == if cur == -1 then old(procs) else old(procs)[cur := Charged(old(procs)[cur])]
    {
      if cur == -1 { return; }
      var p := procs[cur];
      p := p.(used := p.used + 1);
      var pri := p.pri;
      if pri < 0 { pri := 0; }
      if pri >= NMLFQ { pri := NMLFQ - 1; }
      if p.used >= SLICE[pri] {
        if p.pri < NMLFQ - 1 { p := p.(pri := p.pri + 1); }
        p := p.(used := 0);
      }
      procs := procs[cur := p];
    }

    method MlfqBoost()
      requires Table()
      modifies this`procs
      ensures Table() && procs == Boosted(old(procs))
    {
      for i := 0 to NPROC
        invariant |procs| == NPROC
        invariant forall k :: 0 <= k < i ==> procs[k] == Lifted(old(procs)[k])
        invariant forall k :: i <= k < NPROC ==> procs[k] == old(procs)[k]
      {
        if !procs[i].status.Unused? { procs := procs[i := procs[i].(pri := 0, used := 0)]; }
      }
      assert procs == Boosted(old(procs));
    }

    /** clockintr, mlfq_tick and yield. */
    method Interrupt()
      requires Table() && 0 <= cur < NPROC
      modifies this`procs, this`ticks
      ensures Table() && ticks == (old(ticks) + 1) % UINT
      ensures procs == Interrupted(old(State(procs, cur, ticks)))
    {
      hide Boosted, Charged, InRange;
      ticks := (ticks + 1) % UINT;
      if ticks % BOOST == 0 { MlfqBoost(); }
      MlfqTick();
      InRangeReady(procs[cur]);
      procs := procs[cur := procs[cur].(status := Ready)];
    }

    /** The timer interrupt of the running process, up to the scheduler's next choice. */
    method Timer()
      requires Table() && 0 <= cur && Inv(State(procs, cur, ticks))
      modifies this
      ensures Table() && 0 <= cur && Inv(State(procs, cur, ticks))
      ensures Round(old(State(procs, cur, ticks)), State(procs, cur, ticks))
    {
      hide Boosted, Charged, InRange;
      ghost var s := State(procs, cur, ticks);
      Interrupt();
      assert procs[s.cur].status.Ready?;
      Schedule();
      assert Round(s, State(procs, cur, ticks));
      InvRound(s, State(procs, cur, ticks));
    }

    /** setpriority: keeps every priority in range. */
    method SetPriority(pid: nat, pri: int) returns (r: int)
      requires Table()
      modifies this`procs
      ensures Table() && (r == 0 || r == -1)
      ensures r == -1 ==> procs == old(procs)
      ensures r == -1 <==> pri < 0 || pri >= NMLFQ || forall i :: 0 <= i < NPROC ==> old(procs)[i].pid != pid
      ensures r == 0 ==> exists i :: 0 <= i < NPROC && old(procs)[i].pid == pid
                           && (forall k :: 0 <= k < i ==> old(procs)[k].pid != pid)
                           && procs == old(procs)[i := old(procs)[i].(pri := pri, used := 0)]
    {
      if pri < 0 || pri >= NMLFQ { return -1; }
      for i := 0 to NPROC
        invariant procs == old(procs) && forall k :: 0 <= k < i ==> procs[k].pid != pid
      {
        if procs[i].pid == pid {
          procs := procs[i := procs[i].(pri := pri, used := 0)];
          return 0;
        }
      }
      return -1;
    }
  }

  // ----- the boost bound

  /** The ticks a process may still be charged at the highest priority. */
  function Share(p: Proc): (n: nat) {
    if p.pri == 0 && p.used < SLICE[0] && (p.status.Ready? || p.status.Running?) then SLICE[0] - p.used else 0
  }

  ghost function Credit(procs: seq<Proc>): (n: nat)
    ensures n <= |procs| * SLICE[0]
  {
    if procs == [] then 0 else Credit(procs[..|procs| - 1]) + Share(procs[|procs| - 1])
  }

  lemma {:induction false} CreditUpdate(procs: seq<Proc>, i: nat, p: Proc)
    requires i < |procs|
    ensures Credit(procs[i := p]) == Credit(procs) - Share(procs[i]) + Share(p)
  {
    var n := |procs| - 1;
    if i == n {
      assert procs[i := p][..n] == procs[..n];
    } else {
      assert procs[i := p][..n] == procs[..n][i := p];
      CreditUpdate(procs[..n], i, p);
    }
  }

  predicate Boosts(s: State) {
    (s.ticks + 1) % UINT % BOOST == 0
  }

  /** The running process was the best choice. */
  ghost predicate Best(s: State) {
    && s.cur < |s.procs|
    && forall j :: 0 <= j < |s.procs| && s.procs[j].status.Ready? ==> s.procs[s.cur].pri <= s.procs[j].pri
  }

  ghost predicate Trace(run: seq<State>) {
    forall k :: 0 <= k < |run| - 1 ==> Round(run[k], run[k + 1])
  }

  /** Ready at the highest priority. */
  predicate Waits(s: State, i: nat) {
    i < |s.procs| && s.procs[i].status.Ready? && s.procs[i].pri == 0
  }

  lemma BestRound(s: State, s': State)
    requires Inv(s) && Round(s, s')
    ensures Best(s')
  {
    hide Boosted, Charged;
  }

  /** While somebody waits at the highest priority, every tick without a boost uses up one unit of credit. */
  lemma CreditRound(s: State, s': State, i: nat)
    requires Inv(s) && Best(s) && Round(s, s') && !Boosts(s) && Waits(s, i)
    ensures Credit(s'.procs) == Credit(s.procs) - 1 && (s'.cur == i || Waits(s', i))
  {
    var mid := Interrupted(s);
    assert InRange(s.procs[s.cur]);
    CreditUpdate(s.procs, s.cur, mid[s.cur]);
    CreditUpdate(mid, s'.cur, mid[s'.cur].(status := Running));
  }

  /** It is chosen before the credit is gone, if no boost interferes. */
  lemma {:induction false} Served(run: seq<State>, i: nat) returns (k: nat)
    requires |run| > 0 && Trace(run) && Inv(run[0]) && Best(run[0]) && Waits(run[0], i)
    requires |run| > Credit(run[0].procs)
    requires forall m :: 0 <= m < |run| ==> !Boosts(run[m])
    ensures k < |run| && k <= Credit(run[0].procs) && run[k].cur == i
    decreases |run|
  {
    assert Credit(run[0].procs) > 0 by { CreditUpdate(run[0].procs, i, run[0].procs[i].(pri := 1)); }
    assert Round(run[0], run[0 + 1]);
    CreditRound(run[0], run[1], i);
    if run[1].cur == i {
      k := 1;
    } else {
      InvRound(run[0], run[1]);
      BestRound(run[0], run[1]);
      forall m | 0 <= m < |run| - 2 ensures Round(run[1..][m], run[1..][m + 1]) {
        assert Round(run[m + 1], run[m + 1 + 1]);
      }
      k := Served(run[1..], i);
      k := k + 1;
    }
  }

  lemma {:induction false} AlongRun(run: seq<State>, k: nat)
    requires k < |run| && Trace(run) && Inv(run[0])
    ensures Inv(run[k]) && run[k].ticks == (run[0].ticks + k) % UINT
    ensures k > 0 ==> Best(run[k])
  {
    if k > 0 {
      AlongRun(run, k - 1);
      assert Round(run[k - 1], run[k - 1 + 1]);
      InvRound(run[k - 1], run[k]);
      BestRound(run[k - 1], run[k]);
      hide Round;
    }
  }

  lemma TailTrace(run: seq<State>, m: nat)
    requires m <= |run| && Trace(run)
    ensures Trace(run[m..])
  {
    forall k | 0 <= k < |run[m..]| - 1 ensures Round(run[m..][k], run[m..][k + 1]) {
      assert Round(run[m + k], run[m + k + 1]);
    }
  }

  /** After a boost everybody has the highest priority but the process that was charged for the tick. */
  lemma AfterBoost(s: State, s': State, i: nat)
    requires Inv(s) && Round(s, s') && Boosts(s) && i < NPROC && s.procs[i].status.Ready?
    ensures s'.cur == i || Waits(s', i)
    ensures Credit(s'.procs) < NPROC * SLICE[0]
  {
    var was := s.cur;
    CreditUpdate(s'.procs, was, s'.procs[was].(pri := 0, used := 0, status := Ready));
  }

  /** The next boost is far enough away, even where the counter wraps. */
  lemma BoostGap(t: nat, m: nat)
    requires t < UINT && (t + 1) % UINT % BOOST == 0 && 0 < m <= NPROC * SLICE[0]
    ensures ((t + m) % UINT + 1) % UINT % BOOST != 0
  {
    var u := (t + 1) % UINT;
    assert u <= 4294967200;
    assert ((t + m) % UINT + 1) % UINT == u + m;
  }

  lemma Prefix(run: seq<State>, n: nat)
    requires n <= |run| && Trace(run)
    ensures Trace(run[..n])
  {
    hide Round;
    forall k | 0 <= k < n - 1 ensures Round(run[..n][k], run[..n][k + 1]) { assert Round(run[k], run[k + 1]); }
  }

  lemma NoBoostSoon(run: seq<State>, m: nat)
    requires 0 < m <= NPROC * SLICE[0] < |run| && Trace(run) && Inv(run[0]) && Boosts(run[0])
    ensures !Boosts(run[m])
  {
    AlongRun(run, m);
    BoostGap(run[0].ticks, m);
  }

  /**
   Every ready process is chosen within NPROC * SLICE[0] ticks of a boost, the tick of the boost included,
   although ties always go to the lowest index.
   */
  lemma BoostBound(run: seq<State>, i: nat) returns (k: nat)
    requires |run| > NPROC * SLICE[0] && Trace(run) && Inv(run[0]) && Boosts(run[0])
    requires i < NPROC && run[0].procs[i].status.Ready?
    ensures k <= NPROC * SLICE[0] && run[k].cur == i
  {
    hide Round, Boosts, Best, Waits, Credit;
    assert Round(run[0], run[0 + 1]);
    AfterBoost(run[0], run[1], i);
    if run[1].cur == i { return 1; }
    AlongRun(run, 1);
    hide Inv;
    var rest := run[..NPROC * SLICE[0] + 1][1..];
    Prefix(run, NPROC * SLICE[0] + 1);
    TailTrace(run[..NPROC * SLICE[0] + 1], 1);
    forall m | 0 <= m < |rest| ensures !Boosts(rest[m]) { NoBoostSoon(run, m + 1); }
    k := Served(rest, i);
    k := k + 1;
  }

  /** Where the next boost is: at most BOOST ticks away. */
  lemma NextBoost(t: nat) returns (m: nat)
    requires t < UINT
    ensures m < BOOST && ((t + m) % UINT + 1) % UINT % BOOST == 0
  {
    m := (BOOST - (t + 1) % BOOST) % BOOST;
    if t + 1 + m >= UINT {
      m := UINT - (t + 1);
    }
  }

  /** A process that is not chosen stays ready. */
  lemma {:induction false} StaysReady(run: seq<State>, i: nat, m: nat)
    requires m < |run| && Trace(run) && Inv(run[0]) && i < NPROC && run[0].procs[i].status.Ready?
    requires forall k :: 0 <= k <= m ==> run[k].cur != i
    ensures Inv(run[m]) && run[m].procs[i].status.Ready?
  {
    AlongRun(run, m);
    if m > 0 {
      StaysReady(run, i, m - 1);
      AlongRun(run, m - 1);
      assert Round(run[m - 1], run[m - 1 + 1]);
    }
  }

  /** No ready process starves: from any moment it runs within BOOST + NPROC * SLICE[0] ticks. */
  lemma NoStarvation(run: seq<State>, i: nat) returns (k: nat)
    requires |run| > BOOST + NPROC * SLICE[0] && Trace(run) && Inv(run[0])
    requires i < NPROC && run[0].procs[i].status.Ready?
    ensures k < BOOST + NPROC * SLICE[0] && run[k].cur == i
  {
    var m := NextBoost(run[0].ticks);
    if early :| 0 <= early <= m && run[early].cur == i { return early; }
    StaysReady(run, i, m);
    AlongRun(run, m);
    TailTrace(run, m);
    k := BoostBound(run[m..], i);
    k := m + k;
  }

  // ----- the way down

  /** How many ticks a process has been charged since it was last at the head of the highest queue. */
  function Spent(p: Proc): (n: int) {
    if p.pri == 0 then p.used else if p.pri == 1 then 1 + p.used else if p.pri == 2 then 3 + p.used else 7 + p.used
  }

  /** How many ticks of the run are charged to process `i`. */
  ghost function Charges(run: seq<State>, i: nat): (n: nat) {
    if |run| <= 1 then 0 else Charges(run[..|run| - 1], i) + if run[|run| - 2].cur == i then 1 else 0
  }

  /** The level and the charge after `n` ticks: slices of 1, 2 and 4, and then of 8 at the lowest level. */
  ghost predicate LevelIs(p: Proc, n: int) {
    && p.pri == (if n < 1 then 0 else if n < 3 then 1 else if n < 7 then 2 else 3)
    && p.used == if n < 1 then n else if n < 3 then n - 1 else if n < 7 then n - 3 else (n - 7) % 8
  }

  lemma LevelRound(s: State, s': State, i: nat, n: int)
    requires Inv(s) && Round(s, s') && !Boosts(s) && i < NPROC && n >= 0 && LevelIs(s.procs[i], n)
    ensures LevelIs(s'.procs[i], n + if s.cur == i then 1 else 0)
  {
  }

  /**
   Without a boost a process is where its charged ticks put it: one level down for each slice used up, and then at
   the lowest level for good.
   */
  lemma {:induction false} LevelAfter(run: seq<State>, i: nat)
    requires |run| > 0 && Trace(run) && Inv(run[0]) && i < NPROC
    requires forall k :: 0 <= k < |run| - 1 ==> !Boosts(run[k])
    ensures |run[|run| - 1].procs| == NPROC
    ensures LevelIs(run[|run| - 1].procs[i], Spent(run[0].procs[i]) + Charges(run, i))
    decreases |run|
  {
    AlongRun(run, |run| - 1);
    if |run| == 1 {
      assert InRange(run[0].procs[i]);
    } else {
      var k := |run| - 2;
      var init := run[..k + 1];
      assert init[k] == run[k];
      AlongRun(run, k);
      Prefix(run, k + 1);
      LevelAfter(init, i);
      assert Round(run[k], run[k + 1]);
      hide Round, Inv, LevelIs;
      assert Spent(run[0].procs[i]) >= 0;
      LevelRound(run[k], run[k + 1], i, Spent(run[0].procs[i]) + Charges(init, i));
    }
  }
}
