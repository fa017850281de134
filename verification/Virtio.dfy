/**
 The driver's half of the disk queue (virtio_disk.c), against a device that takes offered chains in order and
 completes each once, in any order, with a status. Index fields have 16 bits. Methods are what happens between
 two points where the disk lock is free, or one step of the device; they may follow each other in any order.
 */
module Virtio {
  import opened Counting

  const NUM: nat := 8
  const U16: nat := 65536
  const BSIZE: nat := 1024

  /** What a descriptor points to. */
  datatype Target = Nothing | Command(op: nat) | Data(buf: nat) | Status(info: nat)

  datatype Desc = Desc(target: Target, len: nat, next: nat, hasNext: bool, deviceWrites: bool)

  datatype Info = Info(b: nat, status: nat)   // b 0 for none

  datatype Op = Op(write: bool, sector: nat)

  /** The first of the 512-byte sectors of a block, in 32-bit arithmetic. */
  function Sector(blockno: nat): (r: nat) {
    blockno * (BSIZE / 512) % 0x1_0000_0000
  }

  /** The sectors of a block lie where the block does exactly up to block 2^31. */
  lemma SectorExactly(blockno: nat)
    requires blockno < 0x1_0000_0000
    ensures 512 * Sector(blockno) == 1024 * blockno <==> blockno < 0x8000_0000
  {
  }

  /** The two sectors of a block are those of no other block but the one 2^31 further. */
  lemma SectorsApart(a: nat, b: nat)
    ensures Sector(a) + 2 <= Sector(b) || Sector(b) + 2 <= Sector(a) <==> a % 0x8000_0000 != b % 0x8000_0000
  {
    assert Sector(a) == 2 * (a % 0x8000_0000) by { Doubled(a); }
    assert Sector(b) == 2 * (b % 0x8000_0000) by { Doubled(b); }
  }

  lemma Doubled(a: nat)
    ensures Sector(a) == 2 * (a % 0x8000_0000)
  {
    var q, r := a / 0x8000_0000, a % 0x8000_0000;
    assert a * 2 == q * 0x1_0000_0000 + 2 * r;
  }

  datatype Phase = Offered | Taken | Finished | Seen

  /** A request in flight: its buffer, its three descriptors and its status byte, 0xff until the device writes it. */
  datatype Flight = Flight(b: nat, mid: nat, tail: nat, phase: Phase, status: nat)

  // ----- chains

  /** The chain that starts at `head` is the one of flight `f`. */
  ghost predicate Chain(desc: seq<Desc>, head: nat, f: Flight) {
    && |desc| == NUM && head < NUM && f.mid < NUM && f.tail < NUM && head != f.mid && head != f.tail && f.mid != f.tail
    && desc[head].hasNext && desc[head].next == f.mid
    && desc[f.mid].hasNext && desc[f.mid].next == f.tail
    && !desc[f.tail].hasNext
    && desc[head].target == Command(head) && desc[head].len == 16 && !desc[head].deviceWrites
    && desc[f.mid].target == Data(f.b) && desc[f.mid].len == BSIZE
    && desc[f.tail].target == Status(head) && desc[f.tail].len == 1 && desc[f.tail].deviceWrites
  }

  ghost predicate Links(head: nat, f: Flight, i: nat) {
    i == head || i == f.mid || i == f.tail
  }

  /** `owner` names the flight of a descriptor, and `of` that of a buffer, so flights share neither. */
  ghost predicate FlightOk(desc: seq<Desc>, info: seq<Info>, owner: map<nat, nat>, of: map<nat, nat>, head: nat,
                           f: Flight) {
    && |info| == NUM && Chain(desc, head, f)
    && (forall i :: Links(head, f, i) ==> i in owner && owner[i] == head)
    && f.b != 0 && f.b in of && of[f.b] == head
    && info[head] == Info(f.b, f.status) && (f.phase.Seen? ==> f.status == 0)
  }

  ghost predicate DescOk(free: seq<bool>, owner: map<nat, nat>, flights: map<nat, Flight>, i: nat) {
    && i < |free| && (free[i] <==> i !in owner)
    && (i in owner ==> owner[i] in flights && Links(owner[i], flights[owner[i]], i))
  }

  ghost predicate FlightsOk(free: seq<bool>, desc: seq<Desc>, info: seq<Info>, owner: map<nat, nat>, of: map<nat, nat>,
                            flights: map<nat, Flight>) {
    && |free| == NUM && |desc| == NUM && |info| == NUM
    && (forall h :: h in flights ==> FlightOk(desc, info, owner, of, h, flights[h]))
    && (forall i :: 0 <= i < NUM ==> DescOk(free, owner, flights, i))
  }

  /** Two flights have no descriptor and no buffer in common, and none of their descriptors is free. */
  lemma Disjoint(free: seq<bool>, desc: seq<Desc>, info: seq<Info>, owner: map<nat, nat>, of: map<nat, nat>,
                 flights: map<nat, Flight>, g: nat, h: nat)
    requires FlightsOk(free, desc, info, owner, of, flights) && g in flights && h in flights && g != h
    ensures flights[g].b != flights[h].b
    ensures forall i: nat :: Links(g, flights[g], i) ==> i < NUM && !free[i] && !Links(h, flights[h], i)
  {
    assert FlightOk(desc, info, owner, of, g, flights[g]) && FlightOk(desc, info, owner, of, h, flights[h]);
    forall i: nat | Links(g, flights[g], i) ensures i < NUM && !free[i] && !Links(h, flights[h], i) {
      assert DescOk(free, owner, flights, i);
    }
  }

  // ----- rings

  /** The entries from `from` on of `all` are in the ring; the index fields are their numbers modulo 2^16. */
  ghost predicate RingOk(ring: seq<nat>, idx: nat, lag: nat, all: seq<nat>, from: nat) {
    && |ring| == NUM && from <= |all| <= from + NUM && idx == |all| % U16 && lag == from % U16
    && forall k :: from <= k < |all| ==> ring[k % NUM] == all[k]
  }

  ghost predicate Distinct(s: seq<nat>) {
    forall i, j :: 0 <= i < j < |s| ==> s[i] != s[j]
  }

  /** The entries from `from` on are exactly the flights in a given phase. */
  ghost predicate Pending(all: seq<nat>, from: nat, flights: map<nat, Flight>, phase: Phase) {
    && from <= |all| && Distinct(all[from..])
    && forall h :: h in all[from..] <==> h in flights && flights[h].phase == phase
  }

  lemma DistinctShort(s: seq<nat>)
    requires Distinct(s) && forall i :: 0 <= i < |s| ==> s[i] < NUM
    ensures |s| <= NUM
  {
    var m := map i: nat | i < |s| :: s[i];
    Pigeonhole(m, NUM);
    assert m.Keys == Below(|s|);
    BelowSize(|s|);
  }

  lemma SlotOf(x: nat)
    ensures x % U16 % NUM == x % NUM
  {
    assert x == x % U16 + NUM * (8192 * (x / U16));
  }

  lemma WrapNext(x: nat)
    ensures (x % U16 + 1) % U16 == (x + 1) % U16
  {
  }

  lemma SameIndex(w: nat, r: nat)
    requires r <= w <= r + NUM
    ensures w % U16 == r % U16 <==> w == r
  {
  }

  /** The driver, or the device, adds an entry. */
  lemma RingPut(ring: seq<nat>, idx: nat, lag: nat, all: seq<nat>, from: nat, x: nat)
    requires RingOk(ring, idx, lag, all, from) && |all| < from + NUM
    ensures RingOk(ring[idx % NUM := x], (idx + 1) % U16, lag, all + [x], from)
  {
    SlotOf(|all|);
    WrapNext(|all|);
    forall k | from <= k < |all| + 1 ensures ring[|all| % NUM := x][k % NUM] == (all + [x])[k] {
      if k < |all| { OtherSlot(k, |all|); }
    }
  }

  lemma OtherSlot(k: nat, n: nat)
    requires k < n < k + NUM
    ensures k % NUM != n % NUM
  {
  }

  /** The other side takes the oldest. */
  lemma RingGet(ring: seq<nat>, idx: nat, lag: nat, all: seq<nat>, from: nat)
    requires RingOk(ring, idx, lag, all, from) && from < |all|
    ensures ring[lag % NUM] == all[from] && RingOk(ring, idx, (lag + 1) % U16, all, from + 1)
  {
    SlotOf(from);
    WrapNext(from);
  }

  // ----- what each step does to the flights

  const EMPTY: Desc := Desc(Nothing, 0, 0, false, false)

  /** Fields that no flight uses may change. */
  lemma FlightsFrame(free: seq<bool>, desc: seq<Desc>, info: seq<Info>, owner: map<nat, nat>, of: map<nat, nat>,
                     flights: map<nat, Flight>, desc': seq<Desc>)
    requires FlightsOk(free, desc, info, owner, of, flights) && |desc'| == NUM
    requires forall i :: 0 <= i < NUM && !free[i] ==> desc'[i] == desc[i]
    ensures FlightsOk(free, desc', info, owner, of, flights)
  {
    forall h | h in flights ensures FlightOk(desc', info, owner, of, h, flights[h]) {
      InFlight(free, desc, info, owner, of, flights, h);
    }
  }

  lemma InFlight(free: seq<bool>, desc: seq<Desc>, info: seq<Info>, owner: map<nat, nat>, of: map<nat, nat>,
                 flights: map<nat, Flight>, h: nat)
    requires FlightsOk(free, desc, info, owner, of, flights) && h in flights
    ensures var f := flights[h]; FlightOk(desc, info, owner, of, h, f) && !free[h] && !free[f.mid] && !free[f.tail]
  {
    var f := flights[h];
    assert FlightOk(desc, info, owner, of, h, f);
    assert Links(h, f, h) && Links(h, f, f.mid) && Links(h, f, f.tail);
    assert DescOk(free, owner, flights, h);
    assert DescOk(free, owner, flights, f.mid) && DescOk(free, owner, flights, f.tail);
  }

  ghost function Owning(owner: map<nat, nat>, head: nat, f: Flight): (r: map<nat, nat>) {
    owner[head := head][f.mid := head][f.tail := head]
  }

  lemma FlightsAdd(free: seq<bool>, desc: seq<Desc>, info: seq<Info>, owner: map<nat, nat>, of: map<nat, nat>,
                   flights: map<nat, Flight>, head: nat, f: Flight,
                   free': seq<bool>, desc': seq<Desc>, info': seq<Info>)
    requires FlightsOk(free, desc, info, owner, of, flights) && |free'| == |info'| == NUM && Chain(desc', head, f)
    requires free[head] && free[f.mid] && free[f.tail] && f.b !in of && f.b != 0 && f.phase.Offered? && f.status == 0xff
    requires f.status == 0xff
    requires free' == free[head := false][f.mid := false][f.tail := false]
    requires forall i :: 0 <= i < NUM && !free[i] ==> desc'[i] == desc[i]
    requires info' == info[head := Info(f.b, 0xff)]
    ensures head !in flights
    ensures FlightsOk(free', desc', info', Owning(owner, head, f), of[f.b := head], flights[head := f])
  {
    assert head !in flights by {
      if head in flights { InFlight(free, desc, info, owner, of, flights, head); }
    }
    var owner', of', flights' := Owning(owner, head, f), of[f.b := head], flights[head := f];
    forall h | h in flights' ensures FlightOk(desc', info', owner', of', h, flights'[h]) {
      if h != head { KeepsFlight(free, desc, info, owner, of, flights, h, head, f, desc', info'); }
    }
    forall i | 0 <= i < NUM ensures DescOk(free', owner', flights', i) { assert DescOk(free, owner, flights, i); }
  }

  lemma KeepsFlight(free: seq<bool>, desc: seq<Desc>, info: seq<Info>, owner: map<nat, nat>, of: map<nat, nat>,
                    flights: map<nat, Flight>, h: nat, head: nat, f: Flight, desc': seq<Desc>, info': seq<Info>)
    requires FlightsOk(free, desc, info, owner, of, flights) && h in flights && h != head
    requires |desc'| == NUM && head < NUM && f.mid < NUM && f.tail < NUM
    requires free[head] && free[f.mid] && free[f.tail] && f.b !in of
    requires forall i :: 0 <= i < NUM && !free[i] ==> desc'[i] == desc[i]
    requires info' == info[head := Info(f.b, 0xff)]
    ensures FlightOk(desc', info', Owning(owner, head, f), of[f.b := head], h, flights[h])
  {
    InFlight(free, desc, info, owner, of, flights, h);
    assert DescOk(free, owner, flights, head);
    assert DescOk(free, owner, flights, f.mid) && DescOk(free, owner, flights, f.tail);
    assert head !in owner && f.mid !in owner && f.tail !in owner;
  }

  lemma FlightsRemove(free: seq<bool>, desc: seq<Desc>, info: seq<Info>, owner: map<nat, nat>, of: map<nat, nat>,
                      flights: map<nat, Flight>, head: nat, f: Flight,
                      free': seq<bool>, desc': seq<Desc>, info': seq<Info>)
    requires FlightsOk(free, desc, info, owner, of, flights) && head in flights && flights[head] == f
    requires |desc'| == NUM && head < NUM && f.mid < NUM && f.tail < NUM
    requires free' == free[head := true][f.mid := true][f.tail := true]
    requires forall i :: 0 <= i < NUM && !Links(head, f, i) ==> desc'[i] == desc[i]
    requires info' == info[head := Info(0, 0)]
    ensures FlightsOk(free', desc', info', owner - {head, f.mid, f.tail}, of - {f.b}, flights - {head})
  {
    var owner', of', flights' := owner - {head, f.mid, f.tail}, of - {f.b}, flights - {head};
    forall h | h in flights' ensures FlightOk(desc', info', owner', of', h, flights'[h]) {
      OtherStays(free, desc, info, owner, of, flights, h, head, desc', info');
    }
    assert FlightOk(desc, info, owner, of, head, f);
    forall i | 0 <= i < NUM ensures DescOk(free', owner', flights', i) {
      assert DescOk(free, owner, flights, i);
      DescFreed(free, owner, flights, head, f, i);
    }
    hide FlightOk, DescOk;
  }

  lemma DescFreed(free: seq<bool>, owner: map<nat, nat>, flights: map<nat, Flight>, head: nat, f: Flight, i: nat)
    requires |free| == NUM && DescOk(free, owner, flights, i) && head in flights && flights[head] == f
    requires head < NUM && f.mid < NUM && f.tail < NUM
    requires forall k :: Links(head, f, k) ==> k in owner && owner[k] == head
    ensures DescOk(free[head := true][f.mid := true][f.tail := true], owner - {head, f.mid, f.tail},
                   flights - {head}, i)
  {
  }

  lemma OtherStays(free: seq<bool>, desc: seq<Desc>, info: seq<Info>, owner: map<nat, nat>, of: map<nat, nat>,
                   flights: map<nat, Flight>, h: nat, head: nat, desc': seq<Desc>, info': seq<Info>)
    requires FlightsOk(free, desc, info, owner, of, flights) && h in flights && head in flights && h != head
    requires |desc'| == NUM && head < NUM
    requires forall i :: 0 <= i < NUM && !Links(head, flights[head], i) ==> desc'[i] == desc[i]
    requires info' == info[head := Info(0, 0)]
    ensures var f := flights[head];
            FlightOk(desc', info', owner - {head, f.mid, f.tail}, of - {f.b}, h, flights[h])
  {
    assert FlightOk(desc, info, owner, of, h, flights[h]);
    Disjoint(free, desc, info, owner, of, flights, h, head);
    hide FlightsOk, Chain;
    Stays(desc, info, owner, of, h, flights[h], head, flights[head], desc', info');
    hide FlightOk;
  }

  lemma Stays(desc: seq<Desc>, info: seq<Info>, owner: map<nat, nat>, of: map<nat, nat>, h: nat, g: Flight,
              head: nat, f: Flight, desc': seq<Desc>, info': seq<Info>)
    requires FlightOk(desc, info, owner, of, h, g) && |desc'| == NUM && head < NUM && g.b != f.b && h != head
    requires forall i: nat :: Links(h, g, i) ==> i < NUM && !Links(head, f, i)
    requires forall i :: 0 <= i < NUM && !Links(head, f, i) ==> desc'[i] == desc[i]
    requires info' == info[head := Info(0, 0)]
    ensures FlightOk(desc', info', owner - {head, f.mid, f.tail}, of - {f.b}, h, g)
  {
    assert Links(h, g, h) && Links(h, g, g.mid) && Links(h, g, g.tail);
  }

  ghost function Moved(flights: map<nat, Flight>, head: nat, phase: Phase, status: nat): (r: map<nat, Flight>)
    requires head in flights
  {
    flights[head := flights[head].(phase := phase, status := status)]
  }

  lemma FlightsMove(free: seq<bool>, desc: seq<Desc>, info: seq<Info>, owner: map<nat, nat>, of: map<nat, nat>,
                    flights: map<nat, Flight>, head: nat, phase: Phase, status: nat)
    requires FlightsOk(free, desc, info, owner, of, flights) && head in flights && head < |info|
    requires phase.Seen? ==> status == 0
    ensures FlightsOk(free, desc, info[head := Info(flights[head].b, status)], owner, of,
                      Moved(flights, head, phase, status))
  {
    var info' := info[head := Info(flights[head].b, status)];
    var flights' := Moved(flights, head, phase, status);
    forall h | h in flights' ensures FlightOk(desc, info', owner, of, h, flights'[h]) {
      assert FlightOk(desc, info, owner, of, h, flights[h]);
      forall i | Links(h, flights'[h], i) ensures i in owner && owner[i] == h { assert Links(h, flights[h], i); }
    }
    forall i | 0 <= i < NUM ensures DescOk(free, owner, flights', i) { assert DescOk(free, owner, flights, i); }
  }

  /** A flight in another phase is appended: still distinct, and no more than the ring holds. */
  lemma PendingAdd(all: seq<nat>, from: nat, flights: map<nat, Flight>, flights': map<nat, Flight>, phase: Phase,
                   head: nat)
    requires Pending(all, from, flights, phase) && head in flights' && flights'[head].phase == phase
    requires head in flights ==> flights[head].phase != phase
    requires forall h :: h != head ==> (h in flights <==> h in flights') && (h in flights ==> flights'[h] == flights[h])
    requires forall h :: h in flights' ==> h < NUM
    ensures Pending(all + [head], from, flights', phase) && |all| < from + NUM
  {
    var was, now := all[from..], (all + [head])[from..];
    assert now == was + [head];
    assert head !in was;
    forall i, j | 0 <= i < j < |now| ensures now[i] != now[j] {
      if j == |was| { assert now[i] in was; }
    }
    forall i | 0 <= i < |now| ensures now[i] < NUM { assert now[i] in now; }
    DistinctShort(now);
  }

  /** The oldest moves on to another phase. */
  lemma PendingNext(all: seq<nat>, from: nat, flights: map<nat, Flight>, phase: Phase, to: Phase, status: nat)
    requires Pending(all, from, flights, phase) && from < |all| && phase != to
    ensures all[from] in flights && flights[all[from]].phase == phase
    ensures Pending(all, from + 1, Moved(flights, all[from], to, status), phase)
  {
    var was, now := all[from..], all[from + 1..];
    assert was == [all[from]] + now;
    assert all[from] in was;
  }

  /** Flights that neither were nor become pending may change. */
  lemma PendingFrame(all: seq<nat>, from: nat, flights: map<nat, Flight>, flights': map<nat, Flight>, phase: Phase)
    requires Pending(all, from, flights, phase)
    requires forall h :: (h in flights && flights[h].phase == phase) <==> (h in flights' && flights'[h].phase == phase)
    ensures Pending(all, from, flights', phase)
  {
  }

  ghost predicate BufOk(busy: set<nat>, of: map<nat, nat>, flights: map<nat, Flight>, b: nat) {
    && (b in of ==> of[b] in flights && flights[of[b]].b == b)
    && (b in busy <==> b in of && of[b] in flights && !flights[of[b]].phase.Seen?)
  }

  /** `busy` are the buffers whose disk flag is set: those the driver has not seen completed. */
  ghost predicate BusyOk(busy: set<nat>, of: map<nat, nat>, flights: map<nat, Flight>) {
    forall b :: BufOk(busy, of, flights, b)
  }

  lemma BusyAdd(busy: set<nat>, of: map<nat, nat>, flights: map<nat, Flight>, head: nat, f: Flight)
    requires BusyOk(busy, of, flights) && head !in flights && f.b !in of && !f.phase.Seen?
    ensures BusyOk(busy + {f.b}, of[f.b := head], flights[head := f])
  {
    var busy', of', flights' := busy + {f.b}, of[f.b := head], flights[head := f];
    forall b ensures BufOk(busy', of', flights', b) { assert BufOk(busy, of, flights, b); }
  }

  lemma BusyMove(busy: set<nat>, of: map<nat, nat>, flights: map<nat, Flight>, head: nat, phase: Phase, status: nat)
    requires BusyOk(busy, of, flights) && head in flights && !flights[head].phase.Seen?
    requires flights[head].b in of && of[flights[head].b] == head
    ensures BusyOk(if phase.Seen? then busy - {flights[head].b} else busy, of, Moved(flights, head, phase, status))
    ensures flights[head].b in busy
  {
    var busy' := if phase.Seen? then busy - {flights[head].b} else busy;
    forall b ensures BufOk(busy', of, Moved(flights, head, phase, status), b) { assert BufOk(busy, of, flights, b); }
    assert BufOk(busy, of, flights, flights[head].b);
  }

  lemma BusyRemove(busy: set<nat>, of: map<nat, nat>, flights: map<nat, Flight>, head: nat)
    requires BusyOk(busy, of, flights) && head in flights && flights[head].phase.Seen?
    requires flights[head].b in of && of[flights[head].b] == head
    ensures BusyOk(busy, of - {flights[head].b}, flights - {head})
  {
    var b0 := flights[head].b;
    forall b ensures BufOk(busy, of - {b0}, flights - {head}, b) { assert BufOk(busy, of, flights, b); }
  }

  ghost predicate Held(free: seq<bool>, desc: seq<Desc>, info: seq<Info>, owner: map<nat, nat>, of: map<nat, nat>,
                       flights: map<nat, Flight>, busy: set<nat>) {
    FlightsOk(free, desc, info, owner, of, flights) && BusyOk(busy, of, flights)
  }

  /** The avail ring holds the chains the device has yet to take, the used ring those the driver has yet to see. */
  ghost predicate Rings(avail: seq<nat>, availIdx: nat, devIdx: nat, offered: seq<nat>, taken: nat,
                        used: seq<nat>, usedTop: nat, usedIdx: nat, done: seq<nat>, seen: nat,
                        flights: map<nat, Flight>) {
    && RingOk(avail, availIdx, devIdx, offered, taken) && Pending(offered, taken, flights, Offered)
    && RingOk(used, usedTop, usedIdx, done, seen) && Pending(done, seen, flights, Finished)
    && forall h :: h in flights ==> h < NUM
  }

  lemma RingsSize(avail: seq<nat>, availIdx: nat, devIdx: nat, offered: seq<nat>, taken: nat,
                  used: seq<nat>, usedTop: nat, usedIdx: nat, done: seq<nat>, seen: nat, flights: map<nat, Flight>)
    requires Rings(avail, availIdx, devIdx, offered, taken, used, usedTop, usedIdx, done, seen, flights)
    ensures |avail| == |used| == NUM && taken <= |offered| && seen <= |done|
    ensures devIdx == availIdx <==> taken == |offered|
    ensures usedIdx == usedTop <==> seen == |done|
  {
    SameIndex(|offered|, taken);
    SameIndex(|done|, seen);
  }

  lemma RingsOffer(avail: seq<nat>, availIdx: nat, devIdx: nat, offered: seq<nat>, taken: nat,
                   used: seq<nat>, usedTop: nat, usedIdx: nat, done: seq<nat>, seen: nat, flights: map<nat, Flight>,
                   head: nat, f: Flight)
    requires Rings(avail, availIdx, devIdx, offered, taken, used, usedTop, usedIdx, done, seen, flights)
    requires head !in flights && f.phase.Offered? && head < NUM
    ensures |avail| == NUM
    ensures Rings(avail[availIdx % NUM := head], (availIdx + 1) % U16, devIdx, offered + [head], taken,
                  used, usedTop, usedIdx, done, seen, flights[head := f])
  {
    PendingAdd(offered, taken, flights, flights[head := f], Offered, head);
    PendingFrame(done, seen, flights, flights[head := f], Finished);
    RingPut(avail, availIdx, devIdx, offered, taken, head);
    hide RingOk, Pending;
  }

  lemma RingsTake(avail: seq<nat>, availIdx: nat, devIdx: nat, offered: seq<nat>, taken: nat,
                  used: seq<nat>, usedTop: nat, usedIdx: nat, done: seq<nat>, seen: nat, flights: map<nat, Flight>)
    requires Rings(avail, availIdx, devIdx, offered, taken, used, usedTop, usedIdx, done, seen, flights)
    requires devIdx != availIdx
    ensures |avail| == NUM && taken < |offered| && avail[devIdx % NUM] == offered[taken]
    ensures offered[taken] in flights && flights[offered[taken]].phase == Offered
    ensures Rings(avail, availIdx, (devIdx + 1) % U16, offered, taken + 1,
                  used, usedTop, usedIdx, done, seen,
                  Moved(flights, offered[taken], Taken, flights[offered[taken]].status))
  {
    SameIndex(|offered|, taken);
    RingGet(avail, availIdx, devIdx, offered, taken);
    PendingNext(offered, taken, flights, Offered, Taken, flights[offered[taken]].status);
    hide RingOk;
    PendingFrame(done, seen, flights, Moved(flights, offered[taken], Taken, flights[offered[taken]].status), Finished);
    hide Pending;
  }

  lemma RingsFinish(avail: seq<nat>, availIdx: nat, devIdx: nat, offered: seq<nat>, taken: nat,
                    used: seq<nat>, usedTop: nat, usedIdx: nat, done: seq<nat>, seen: nat, flights: map<nat, Flight>,
                    id: nat, status: nat)
    requires Rings(avail, availIdx, devIdx, offered, taken, used, usedTop, usedIdx, done, seen, flights)
    requires id in flights && flights[id].phase.Taken?
    ensures |used| == NUM
    ensures Rings(avail, availIdx, devIdx, offered, taken, used[usedTop % NUM := id], (usedTop + 1) % U16, usedIdx,
                  done + [id], seen, Moved(flights, id, Finished, status))
  {
    PendingFrame(offered, taken, flights, Moved(flights, id, Finished, status), Offered);
    PendingAdd(done, seen, flights, Moved(flights, id, Finished, status), Finished, id);
    RingPut(used, usedTop, usedIdx, done, seen, id);
    hide RingOk, Pending;
  }

  lemma RingsSee(avail: seq<nat>, availIdx: nat, devIdx: nat, offered: seq<nat>, taken: nat,
                 used: seq<nat>, usedTop: nat, usedIdx: nat, done: seq<nat>, seen: nat, flights: map<nat, Flight>)
    requires Rings(avail, availIdx, devIdx, offered, taken, used, usedTop, usedIdx, done, seen, flights)
    requires usedIdx != usedTop
    ensures |used| == NUM && seen < |done| && used[usedIdx % NUM] == done[seen]
    ensures done[seen] in flights && flights[done[seen]].phase == Finished
    ensures Rings(avail, availIdx, devIdx, offered, taken, used, usedTop, (usedIdx + 1) % U16, done, seen + 1,
                  Moved(flights, done[seen], Seen, 0))
  {
    SameIndex(|done|, seen);
    RingGet(used, usedTop, usedIdx, done, seen);
    PendingNext(done, seen, flights, Finished, Seen, 0);
    hide RingOk;
    PendingFrame(offered, taken, flights, Moved(flights, done[seen], Seen, 0), Offered);
    hide Pending;
  }

  lemma RingsRemove(avail: seq<nat>, availIdx: nat, devIdx: nat, offered: seq<nat>, taken: nat,
                    used: seq<nat>, usedTop: nat, usedIdx: nat, done: seq<nat>, seen: nat, flights: map<nat, Flight>,
                    head: nat)
    requires Rings(avail, availIdx, devIdx, offered, taken, used, usedTop, usedIdx, done, seen, flights)
    requires head in flights && flights[head].phase.Seen?
    ensures Rings(avail, availIdx, devIdx, offered, taken, used, usedTop, usedIdx, done, seen, flights - {head})
  {
    PendingFrame(offered, taken, flights, flights - {head}, Offered);
    PendingFrame(done, seen, flights, flights - {head}, Finished);
    hide RingOk, Pending;
  }

  lemma HeldAdd(free: seq<bool>, desc: seq<Desc>, info: seq<Info>, owner: map<nat, nat>, of: map<nat, nat>,
                flights: map<nat, Flight>, busy: set<nat>, head: nat, f: Flight,
                free': seq<bool>, desc': seq<Desc>, info': seq<Info>)
    requires Held(free, desc, info, owner, of, flights, busy) && |free'| == |info'| == NUM && Chain(desc', head, f)
    requires free[head] && free[f.mid] && free[f.tail] && f.b !in of && f.b != 0 && f.phase.Offered? && f.status == 0xff
    requires f.status == 0xff
    requires free' == free[head := false][f.mid := false][f.tail := false]
    requires forall i :: 0 <= i < NUM && !free[i] ==> desc'[i] == desc[i]
    requires info' == info[head := Info(f.b, 0xff)]
    ensures head !in flights
    ensures Held(free', desc', info', Owning(owner, head, f), of[f.b := head], flights[head := f], busy + {f.b})
  {
    FlightsAdd(free, desc, info, owner, of, flights, head, f, free', desc', info');
    hide FlightsOk;
    BusyAdd(busy, of, flights, head, f);
  }

  /** What is known of one flight, and what happens to the whole when it changes phase. */
  lemma HeldMove(free: seq<bool>, desc: seq<Desc>, info: seq<Info>, owner: map<nat, nat>, of: map<nat, nat>,
                 flights: map<nat, Flight>, busy: set<nat>, id: nat, phase: Phase, status: nat)
    requires Held(free, desc, info, owner, of, flights, busy) && id in flights && !flights[id].phase.Seen?
    ensures id < NUM == |info| && flights[id].b in busy && info[id] == Info(flights[id].b, flights[id].status)
    ensures (phase.Seen? ==> status == 0) ==>
              Held(free, desc, info[id := Info(flights[id].b, status)], owner, of, Moved(flights, id, phase, status),
                   if phase.Seen? then busy - {flights[id].b} else busy)
  {
    InFlight(free, desc, info, owner, of, flights, id);
    if phase.Seen? ==> status == 0 { FlightsMove(free, desc, info, owner, of, flights, id, phase, status); }
    hide FlightsOk;
    BusyMove(busy, of, flights, id, phase, status);
  }

  /** A flight whose buffer is no longer busy has been seen, and its chain is whole. */
  lemma HeldDone(free: seq<bool>, desc: seq<Desc>, info: seq<Info>, owner: map<nat, nat>, of: map<nat, nat>,
                 flights: map<nat, Flight>, busy: set<nat>, head: nat)
    requires Held(free, desc, info, owner, of, flights, busy) && head in flights && flights[head].b !in busy
    ensures var f := flights[head];
            && f.phase.Seen? && head < NUM == |info| == |free| && Chain(desc, head, f) && info[head] == Info(f.b, 0)
            && !free[head] && !free[f.mid] && !free[f.tail]
  {
    InFlight(free, desc, info, owner, of, flights, head);
    assert BufOk(busy, of, flights, flights[head].b);
  }

  lemma HeldRemove(free: seq<bool>, desc: seq<Desc>, info: seq<Info>, owner: map<nat, nat>, of: map<nat, nat>,
                   flights: map<nat, Flight>, busy: set<nat>, head: nat, f: Flight,
                   free': seq<bool>, desc': seq<Desc>, info': seq<Info>)
    requires Held(free, desc, info, owner, of, flights, busy) && head in flights && flights[head] == f && f.phase.Seen?
    requires |desc'| == NUM && head < NUM && f.mid < NUM && f.tail < NUM
    requires free' == free[head := true][f.mid := true][f.tail := true]
    requires forall i :: 0 <= i < NUM && !Links(head, f, i) ==> desc'[i] == desc[i]
    requires info' == info[head := Info(0, 0)]
    ensures Held(free', desc', info', owner - {head, f.mid, f.tail}, of - {f.b}, flights - {head}, busy)
  {
    FlightsRemove(free, desc, info, owner, of, flights, head, f, free', desc', info');
    InFlight(free, desc, info, owner, of, flights, head);
    hide FlightsOk;
    BusyRemove(busy, of, flights, head);
  }

  predicate ThreeFree(free: seq<bool>) {
    exists a, b, c :: 0 <= a < b < c < |free| && free[a] && free[b] && free[c]
  }

  class Disk {
    var free: seq<bool>
    var desc: seq<Desc>
    var info: seq<Info>
    var ops: seq<Op>
    var avail: seq<nat>
    var availIdx: nat
    var devIdx: nat          // how far the device has read avail
    var used: seq<nat>
    var usedTop: nat         // used->idx, written by the device
    var usedIdx: nat         // how far the driver has read used
    var busy: set<nat>
    ghost var flights: map<nat, Flight>
    ghost var owner: map<nat, nat>
    ghost var of: map<nat, nat>
    ghost var offered: seq<nat>   // every head ever offered, and how many the device has taken
    ghost var taken: nat
    ghost var done: seq<nat>      // every head ever completed, and how many the driver has seen
    ghost var seen: nat

    ghost predicate Valid()
      reads this
    {
      && |ops| == NUM && Held(free, desc, info, owner, of, flights, busy)
      && Rings(avail, availIdx, devIdx, offered, taken, used, usedTop, usedIdx, done, seen, flights)
    }

    constructor ()
      ensures Valid() && flights == map[] && offered == [] && done == []
    {
      free, desc := seq(NUM, i => true), seq(NUM, i => EMPTY);
      info, ops := seq(NUM, i => Info(0, 0)), seq(NUM, i => Op(false, 0));
      avail, availIdx, devIdx := seq(NUM, i => 0), 0, 0;
      used, usedTop, usedIdx := seq(NUM, i => 0), 0, 0;
      busy, flights, owner, of := {}, map[], map[], map[];
      offered, taken, done, seen := [], 0, [], 0;
    }

    // ----- descriptors

    method AllocDesc() returns (i: int)
      requires |free| == NUM
      modifies this`free
      ensures i == -1 ==> free == old(free) && forall k :: 0 <= k < NUM ==> !free[k]
      ensures i != -1 ==> 0 <= i < NUM && old(free)[i] && free == old(free)[i := false]
      ensures i != -1 ==> forall k :: 0 <= k < i ==> !old(free)[k]
    {
      for k := 0 to NUM
        invariant free == old(free) && forall m :: 0 <= m < k ==> !free[m]
      {
        if free[k] {
          free := free[k := false];
          return k;
        }
      }
      return -1;
    }

    /** `ok` is false where the source panics. */
    method FreeDesc(i: nat) returns (ok: bool)
      requires |free| == NUM && |desc| == NUM
      modifies this`free, this`desc
      ensures ok <==> i < NUM && !old(free)[i]
      ensures ok ==> free == old(free)[i := true] && desc == old(desc)[i := EMPTY]
      ensures !ok ==> free == old(free) && desc == old(desc)
    {
      if i >= NUM { return false; }
      if free[i] { return false; }
      desc, free := desc[i := EMPTY], free[i := true];
      ok := true;
    }

    /** Three descriptors, or none and as many free ones as before. */
    method Alloc3() returns (ok: bool, idx: seq<nat>)
      requires |free| == NUM && |desc| == NUM
      modifies this`free, this`desc
      ensures |free| == NUM && |desc| == NUM && (ok <==> ThreeFree(old(free)))
      ensures ok ==> && |idx| == 3 && idx[0] < idx[1] < idx[2] < NUM && desc == old(desc)
                     && old(free)[idx[0]] && old(free)[idx[1]] && old(free)[idx[2]]
                     && free == old(free)[idx[0] := false][idx[1] := false][idx[2] := false]
      ensures !ok ==> free == old(free)
      ensures forall i :: 0 <= i < NUM && !old(free)[i] ==> desc[i] == old(desc)[i]
    {
      hide Marked, ThreeFree;
      idx := [];
      ghost var was := free;
      while |idx| < 3
        invariant |idx| <= 3 && Picked(was, idx) && desc == old(desc) && free == Marked(was, idx)
      {
        var x := AllocDesc();
        if x < 0 {
          NoneLeft(was, idx);
          Rollback(was, idx);
          return false, [];
        }
        PickedMore(was, idx, x);
        idx := idx + [x];
      }
      PickedThree(was, idx);
      ok := true;
    }

    method Rollback(ghost was: seq<bool>, idx: seq<nat>)
      requires |desc| == NUM && Picked(was, idx) && free == Marked(was, idx)
      modifies this`free, this`desc
      ensures free == was && |free| == NUM && |desc| == NUM
      ensures forall k :: 0 <= k < NUM && !was[k] ==> desc[k] == old(desc)[k]
    {
      hide Marked;
      assert idx[0..] == idx && idx[|idx|..] == [];
      for j := 0 to |idx|
        invariant |desc| == NUM && Suffix(was, idx, j) && free == Marked(was, idx[j..])
        invariant forall k :: 0 <= k < NUM && !was[k] ==> desc[k] == old(desc)[k]
      {
        MarkedDrop(was, idx, j);
        var freed := FreeDesc(idx[j]);
        assert freed;
      }
    }

    /** Follows a chain; `ok` is false if a descriptor of it is free already. */
    method FreeChain(head: nat, ghost f: Flight) returns (ok: bool)
      requires |free| == NUM && Chain(desc, head, f) && !free[head] && !free[f.mid] && !free[f.tail]
      modifies this`free, this`desc
      ensures ok && free == old(free)[head := true][f.mid := true][f.tail := true]
      ensures |desc| == NUM && forall i :: 0 <= i < NUM && !Links(head, f, i) ==> desc[i] == old(desc)[i]
    {
      var i := head;
      ghost var left := 2;
      while true
        invariant |free| == NUM && |desc| == NUM && 0 <= left <= 2
        invariant i == if left == 2 then head else if left == 1 then f.mid else f.tail
        invariant left == 2 ==> free == old(free) && desc == old(desc)
        invariant left == 1 ==> free == old(free)[head := true] && desc == old(desc)[head := EMPTY]
        invariant left == 0 ==> && free == old(free)[head := true][f.mid := true]
                                && desc == old(desc)[head := EMPTY][f.mid := EMPTY]
        decreases left
      {
        var flag, nxt := desc[i].hasNext, desc[i].next;
        ok := FreeDesc(i);
        if !ok { return; }
        if !flag { break; }
        i, left := nxt, left - 1;
      }
    }

    // ----- the driver

    /** The first half of virtio_disk_rw: -1 when it must wait for descriptors. */
    method Submit(b: nat, write: bool, blockno: nat) returns (head: int, ghost f: Flight)
      requires Valid() && b != 0 && b !in of
      modifies this
      ensures Valid() && done == old(done) && seen == old(seen) && taken == old(taken)
      ensures head == -1 <==> !ThreeFree(old(free))
      ensures head == -1 ==> && free == old(free) && flights == old(flights) && busy == old(busy)
                             && offered == old(offered) && of == old(of)
      ensures head != -1 ==> && head >= 0 && head !in old(flights) && flights == old(flights)[head := f]
                             && f.b == b && f.phase == Offered && Chain(desc, head, f)
                             && ops[head] == Op(write, Sector(blockno)) && desc[f.mid].deviceWrites == !write
                             && busy == old(busy) + {b} && offered == old(offered) + [head] && of == old(of)[b := head]
    {
      hide Held, Rings, ThreeFree, Owning, Chain;
      f := Flight(b, 0, 0, Offered, 0xff);
      HeldSize(free, desc, info, owner, of, flights, busy);
      var ok, idx := Alloc3();
      HeldFrame(old(free), old(desc), info, owner, of, flights, busy, desc);
      if !ok { return -1, f; }
      head := idx[0];
      f := Flight(b, idx[1], idx[2], Offered, 0xff);
      Launch(old(free), b, write, blockno, head, idx[1], idx[2], f);
    }

    /** Formats and offers a chain of three descriptors that were free before. */
    method Launch(ghost was: seq<bool>, b: nat, write: bool, blockno: nat, head: nat, mid: nat, tail: nat,
                  ghost f: Flight)
      requires |ops| == NUM && |was| == |desc| == |info| == NUM && head < mid < tail < NUM && was[head]
      requires was[mid] && was[tail]
      requires free == was[head := false][mid := false][tail := false] && f == Flight(b, mid, tail, Offered, 0xff)
      requires Held(was, desc, info, owner, of, flights, busy) && b != 0 && b !in of
      requires Rings(avail, availIdx, devIdx, offered, taken, used, usedTop, usedIdx, done, seen, flights)
      modifies this`desc, this`info, this`ops, this`busy, this`avail, this`availIdx
      modifies this`flights, this`owner, this`of, this`offered
      ensures Valid() && head !in old(flights) && flights == old(flights)[head := f] && Chain(desc, head, f)
      ensures ops[head] == Op(write, Sector(blockno)) && desc[mid].deviceWrites == !write
      ensures busy == old(busy) + {b} && offered == old(offered) + [head] && of == old(of)[b := head]
    {
      hide Held, Rings, Owning, Chain, Sector;
      ghost var desc0, info0 := desc, info;
      Format(b, write, blockno, head, mid, tail, f);
      HeldAdd(was, desc0, info0, owner, of, flights, busy, head, f, free, desc, info);
      Offer(b, head, f);
    }

    /** Marks the buffer and puts the chain into the avail ring. */
    method Offer(b: nat, head: nat, ghost f: Flight)
      requires |ops| == NUM && head !in flights && head < NUM && f.phase.Offered? && f.b == b
      requires Held(free, desc, info, Owning(owner, head, f), of[b := head], flights[head := f], busy + {b})
      requires Rings(avail, availIdx, devIdx, offered, taken, used, usedTop, usedIdx, done, seen, flights)
      modifies this`busy, this`avail, this`availIdx, this`flights, this`owner, this`of, this`offered
      ensures Valid() && flights == old(flights)[head := f] && busy == old(busy) + {b}
      ensures offered == old(offered) + [head] && of == old(of)[b := head]
    {
      hide Held, Rings, Owning;
      RingsOffer(avail, availIdx, devIdx, offered, taken, used, usedTop, usedIdx, done, seen, flights, head, f);
      busy := busy + {b};
      avail := avail[availIdx % NUM := head];
      availIdx := (availIdx + 1) % U16;
      flights, owner, of, offered := flights[head := f], Owning(owner, head, f), of[b := head], offered + [head];
    }

    /** The three descriptors, the command and the completion record. */
    method Format(b: nat, write: bool, blockno: nat, head: nat, mid: nat, tail: nat, ghost f: Flight)
      requires |desc| == |info| == |ops| == NUM && head < NUM && mid < NUM && tail < NUM
      requires head != mid && head != tail && mid != tail && f == Flight(b, mid, tail, Offered, 0xff)
      modifies this`desc, this`info, this`ops
      ensures Chain(desc, head, f) && |desc| == |ops| == NUM
      ensures ops[head] == Op(write, Sector(blockno)) && desc[mid].deviceWrites == !write
      ensures info == old(info)[head := Info(b, 0xff)]
      ensures forall i :: 0 <= i < NUM && !Links(head, f, i) ==> desc[i] == old(desc)[i]
    {
      ops := ops[head := Op(write, Sector(blockno))];
      desc := desc[head := Desc(Command(head), 16, mid, true, false)];
      desc := desc[mid := Desc(Data(b), BSIZE, tail, true, !write)];
      desc := desc[tail := Desc(Status(head), 1, 0, false, true)];
      info := info[head := Info(b, 0xff)];
    }

    /** One round of virtio_disk_intr's loop; `ok` is false where it panics, on a status other than 0. */
    method Interrupt() returns (ok: bool, b: nat)
      requires Valid() && usedIdx != usedTop
      modifies this`usedIdx, this`busy, this`flights, this`seen
      ensures Valid() && old(seen) < |done|
      ensures var id := done[old(seen)];
              && id in old(flights) && old(flights)[id].phase == Finished && b == old(flights)[id].b
              && (ok <==> old(flights)[id].status == 0)
              && (ok ==> && seen == old(seen) + 1 && flights == Moved(old(flights), id, Seen, 0)
                         && b in old(busy) && busy == old(busy) - {b})
      ensures !ok ==> unchanged(this)
    {
      hide Held, Rings;
      RingsSee(avail, availIdx, devIdx, offered, taken, used, usedTop, usedIdx, done, seen, flights);
      RingsSize(avail, availIdx, devIdx, offered, taken, used, usedTop, usedIdx, done, seen, flights);
      var id := used[usedIdx % NUM];
      HeldMove(free, desc, info, owner, of, flights, busy, id, Seen, 0);
      ok, b := info[id].status == 0, info[id].b;
      if !ok { return; }
      assert info[id := Info(flights[id].b, 0)] == info;
      busy := busy - {b};
      usedIdx := (usedIdx + 1) % U16;
      flights, seen := Moved(flights, id, Seen, 0), seen + 1;
    }

    /** virtio_disk_intr: everything the device has completed, or up to the first status other than 0. */
    method Intr() returns (ok: bool)
      requires Valid()
      modifies this`usedIdx, this`busy, this`flights, this`seen
      ensures Valid() && old(seen) <= seen <= |done|
      ensures forall k :: old(seen) <= k < seen ==> && done[k] in old(flights) && old(flights)[done[k]].status == 0
                                                    && old(flights)[done[k]].b !in busy
      ensures ok <==> seen == |done|
      ensures !ok ==> done[seen] in old(flights) && old(flights)[done[seen]].status != 0
    {
      hide Held, Rings;
      ok := true;
      RingsSize(avail, availIdx, devIdx, offered, taken, used, usedTop, usedIdx, done, seen, flights);
      while usedIdx != usedTop
        invariant Valid() && ok && old(seen) <= seen <= |done| && (usedIdx == usedTop <==> seen == |done|)
        invariant flights.Keys == old(flights).Keys && forall h :: h in flights ==> flights[h].b == old(flights)[h].b
        invariant forall h :: h in flights && flights[h].phase == Finished ==> flights[h] == old(flights)[h]
        invariant forall k :: old(seen) <= k < seen ==> && done[k] in old(flights) && old(flights)[done[k]].status == 0
                                                        && old(flights)[done[k]].b !in busy
        decreases |done| - seen
      {
        var b;
        ok, b := Interrupt();
        if !ok { return; }
        RingsSize(avail, availIdx, devIdx, offered, taken, used, usedTop, usedIdx, done, seen, flights);
      }
    }

    /** The second half of virtio_disk_rw, once the buffer is no longer busy: its three descriptors are free again. */
    method Complete(head: nat) returns (ok: bool)
      requires Valid() && head in flights && flights[head].b !in busy
      modifies this`info, this`free, this`desc, this`flights, this`owner, this`of
      ensures Valid() && ok && flights == old(flights) - {head} && of == old(of) - {old(flights)[head].b}
      ensures var f := old(flights)[head]; Freed(old(free), head, f, free)
    {
      hide Held, Rings, Chain;
      ghost var f := flights[head];
      HeldDone(free, desc, info, owner, of, flights, busy, head);
      RingsRemove(avail, availIdx, devIdx, offered, taken, used, usedTop, usedIdx, done, seen, flights, head);
      ghost var desc0, info0 := desc, info;
      info := info[head := info[head].(b := 0)];
      ok := FreeChain(head, f);
      ChainBelow(desc0, head, f);
      HeldRemove(old(free), desc0, info0, owner, of, flights, busy, head, f, free, desc, info);
      flights, owner, of := flights - {head}, owner - {head, f.mid, f.tail}, of - {f.b};
    }

    // ----- the device

    /** Takes the oldest chain offered. */
    method DeviceTake() returns (id: nat)
      requires Valid() && devIdx != availIdx
      modifies this`devIdx, this`flights, this`taken
      ensures Valid() && taken == old(taken) + 1 <= |offered| && id == offered[old(taken)]
      ensures id in old(flights) && old(flights)[id].phase == Offered
      ensures flights == Moved(old(flights), id, Taken, old(flights)[id].status)
    {
      hide Held, Rings;
      RingsTake(avail, availIdx, devIdx, offered, taken, used, usedTop, usedIdx, done, seen, flights);
      RingsSize(avail, availIdx, devIdx, offered, taken, used, usedTop, usedIdx, done, seen, flights);
      id := avail[devIdx % NUM];
      HeldMove(free, desc, info, owner, of, flights, busy, id, Taken, flights[id].status);
      assert info[id := Info(flights[id].b, flights[id].status)] == info;
      devIdx := (devIdx + 1) % U16;
      flights, taken := Moved(flights, id, Taken, flights[id].status), taken + 1;
    }

    /** Completes one of the chains it has taken, any one, with any status. */
    method DeviceFinish(id: nat, status: nat)
      requires Valid() && id in flights && flights[id].phase == Taken
      modifies this`info, this`used, this`usedTop, this`flights, this`done
      ensures Valid() && done == old(done) + [id] && flights == Moved(old(flights), id, Finished, status)
    {
      hide Held, Rings;
      HeldMove(free, desc, info, owner, of, flights, busy, id, Finished, status);
      RingsFinish(avail, availIdx, devIdx, offered, taken, used, usedTop, usedIdx, done, seen, flights, id, status);
      info := info[id := info[id].(status := status)];
      used := used[usedTop % NUM := id];
      usedTop := (usedTop + 1) % U16;
      flights, done := Moved(flights, id, Finished, status), done + [id];
    }
  }

  lemma ChainBelow(desc: seq<Desc>, head: nat, f: Flight)
    requires Chain(desc, head, f)
    ensures head < NUM && f.mid < NUM && f.tail < NUM
  {
  }

  /** Exactly the three descriptors of the flight have become free. */
  ghost predicate Freed(free: seq<bool>, head: nat, f: Flight, free': seq<bool>) {
    && |free'| == |free| && forall i: nat :: i < |free| ==> free'[i] == (free[i] || Links(head, f, i))
  }

  lemma HeldSize(free: seq<bool>, desc: seq<Desc>, info: seq<Info>, owner: map<nat, nat>, of: map<nat, nat>,
                 flights: map<nat, Flight>, busy: set<nat>)
    requires Held(free, desc, info, owner, of, flights, busy)
    ensures |free| == |desc| == |info| == NUM
  {
  }

  lemma HeldFrame(free: seq<bool>, desc: seq<Desc>, info: seq<Info>, owner: map<nat, nat>, of: map<nat, nat>,
                  flights: map<nat, Flight>, busy: set<nat>, desc': seq<Desc>)
    requires Held(free, desc, info, owner, of, flights, busy) && |desc'| == NUM
    requires forall i :: 0 <= i < NUM && !free[i] ==> desc'[i] == desc[i]
    ensures Held(free, desc', info, owner, of, flights, busy)
  {
    FlightsFrame(free, desc, info, owner, of, flights, desc');
  }

  /** The descriptors in `idx` are no longer free. */
  ghost function Marked(free: seq<bool>, idx: seq<nat>): (r: seq<bool>)
    requires forall k :: 0 <= k < |idx| ==> idx[k] < |free|
    ensures |r| == |free| && forall i :: 0 <= i < |free| ==> r[i] == (free[i] && i !in idx)
  {
    if idx == [] then free else Marked(free, idx[..|idx| - 1])[idx[|idx| - 1] := false]
  }

  /** `idx` are the first free descriptors, in order. */
  ghost predicate Picked(free: seq<bool>, idx: seq<nat>) {
    && |free| == NUM && (forall k :: 0 <= k < |idx| ==> idx[k] < NUM && free[idx[k]])
    && (forall k, m :: 0 <= k < m < |idx| ==> idx[k] < idx[m])
    && (idx != [] ==> forall i :: 0 <= i < idx[|idx| - 1] && free[i] ==> i in idx)
  }

  ghost predicate Suffix(free: seq<bool>, idx: seq<nat>, j: nat) {
    && Picked(free, idx) && j <= |idx| && forall k :: 0 <= k < |idx[j..]| ==> idx[j..][k] < |free|
  }

  lemma MarkedDrop(free: seq<bool>, idx: seq<nat>, j: nat)
    requires Suffix(free, idx, j) && j < |idx|
    ensures Suffix(free, idx, j + 1) && idx[j] < NUM && free[idx[j]] && !Marked(free, idx[j..])[idx[j]]
    ensures Marked(free, idx[j..])[idx[j] := true] == Marked(free, idx[j + 1..])
  {
    hide Marked;
    assert idx[j] in idx[j..] && idx[j] !in idx[j + 1..];
    assert idx[j..] == [idx[j]] + idx[j + 1..];
  }

  lemma PickedMore(free: seq<bool>, idx: seq<nat>, x: nat)
    requires Picked(free, idx) && x < NUM && Marked(free, idx)[x]
    requires forall i :: 0 <= i < x ==> !Marked(free, idx)[i]
    ensures Picked(free, idx + [x]) && Marked(free, idx + [x]) == Marked(free, idx)[x := false]
  {
    hide Marked;
    assert free[x] && x !in idx;
    assert idx != [] ==> idx[|idx| - 1] < x;
    var idx' := idx + [x];
    assert forall i :: i in idx' <==> i in idx || i == x;
    forall i | 0 <= i < x && free[i] ensures i in idx' { assert !Marked(free, idx)[i]; }
  }

  lemma NoneLeft(free: seq<bool>, idx: seq<nat>)
    requires Picked(free, idx) && |idx| < 3 && forall i :: 0 <= i < NUM ==> !Marked(free, idx)[i]
    ensures !ThreeFree(free)
  {
    hide Marked;
    forall i | 0 <= i < NUM && free[i] ensures (|idx| > 0 && i == idx[0]) || (|idx| > 1 && i == idx[1]) {
      assert !Marked(free, idx)[i];
    }
  }

  lemma PickedThree(free: seq<bool>, idx: seq<nat>)
    requires Picked(free, idx) && |idx| == 3
    ensures ThreeFree(free) && idx[0] < idx[1] < idx[2]
    ensures Marked(free, idx) == free[idx[0] := false][idx[1] := false][idx[2] := false]
  {
  }
}
