/** The table of mapped regions: where mmap places them and what munmap takes away. Addresses are bytes. */
module Vma {

  const PGSIZE: nat := 4096
  const MAXVMA: nat := 16
  const NPROC: nat := 64
  const MAXVA: nat := 0x40_0000_0000
  const U64: nat := 0x1_0000_0000_0000_0000

  /** TRAPFRAME(NPROC), the end of the space for regions. */
  const HIGH: nat := MAXVA - PGSIZE - (NPROC + 1) * PGSIZE

  /** `file` names the open file behind the region. */
  datatype Vma = Vma(used: bool, addr: nat, len: nat, prot: nat, shared: bool, off: nat, file: nat)

  const NONE: Vma := Vma(false, 0, 0, 0, false, 0, 0)

  predicate Aligned(x: int) {
    x % PGSIZE == 0
  }

  lemma AlignedSum(x: int, y: int)
    requires Aligned(x) && Aligned(y)
    ensures Aligned(x + y) && Aligned(x - y)
  {
  }

  /** PGROUNDUP in 64-bit arithmetic. */
  function PgRoundUp(n: nat): (r: nat)
    ensures Aligned(r)
  {
    (n + PGSIZE - 1) % U64 / PGSIZE * PGSIZE
  }

  /** It rounds up, except that the lengths above U64 - PGSIZE wrap around to 0. */
  lemma RoundsUp(n: nat)
    requires n < U64
    ensures n <= U64 - PGSIZE ==> n <= PgRoundUp(n) < n + PGSIZE
    ensures n > U64 - PGSIZE ==> PgRoundUp(n) == 0
  {
  }

  predicate Contains(v: Vma, x: nat) {
    v.used && v.addr <= x < v.addr + v.len
  }

  /** [a, a + len) and the region have no address in common. */
  predicate Apart(a: nat, len: nat, v: Vma) {
    !v.used || a + len <= v.addr || v.addr + v.len <= a
  }

  predicate RegionOk(v: Vma) {
    v.used ==> Aligned(v.addr) && Aligned(v.len) && v.addr + v.len <= HIGH
  }

  /** Regions are page-aligned, below the trapframes and pairwise disjoint. */
  ghost predicate TableOk(vmas: seq<Vma>) {
    && |vmas| == MAXVMA
    && (forall i :: 0 <= i < MAXVMA ==> RegionOk(vmas[i]))
    && (forall i, j :: 0 <= i < MAXVMA && 0 <= j < MAXVMA && i != j && vmas[i].used ==>
                         Apart(vmas[i].addr, vmas[i].len, vmas[j]))
  }

  /** The reference to an open file that a region has. */
  ghost function FileOf(v: Vma): (file: multiset<nat>) {
    if v.used then multiset{v.file} else multiset{}
  }

  /** The open files behind the regions, one reference for each region. */
  ghost function FilesOf(vmas: seq<Vma>): (files: multiset<nat>) {
    if vmas == [] then multiset{} else FilesOf(vmas[..|vmas| - 1]) + FileOf(vmas[|vmas| - 1])
  }

  lemma {:induction false} FilesUpdate(vmas: seq<Vma>, i: nat, v: Vma)
    requires i < |vmas|
    ensures FilesOf(vmas[i := v]) == FilesOf(vmas) - FileOf(vmas[i]) + FileOf(v) && FileOf(vmas[i]) <= FilesOf(vmas)
  {
    hide FileOf;
    var n := |vmas| - 1;
    if i == n {
      assert vmas[i := v][..n] == vmas[..n];
      Replaced(FilesOf(vmas[..n]), FileOf(vmas[n]), FileOf(v));
    } else {
      assert vmas[i := v][..n] == vmas[..n][i := v];
      FilesUpdate(vmas[..n], i, v);
      Reordered(FilesOf(vmas[..n]), FileOf(vmas[n]), FileOf(vmas[i]), FileOf(v));
    }
  }

  lemma Replaced(rest: multiset<nat>, x: multiset<nat>, y: multiset<nat>)
    ensures rest + x - x + y == rest + y && x <= rest + x
  {
  }

  lemma Reordered(rest: multiset<nat>, last: multiset<nat>, x: multiset<nat>, y: multiset<nat>)
    requires x <= rest
    ensures rest + last - x + y == rest - x + y + last && x <= rest + last
  {
  }

  lemma {:induction false} FilesNone(vmas: seq<Vma>)
    requires forall i :: 0 <= i < |vmas| ==> !vmas[i].used
    ensures FilesOf(vmas) == multiset{}
  {
    if vmas != [] { FilesNone(vmas[..|vmas| - 1]); }
  }

  ghost predicate NoneEmpty(vmas: seq<Vma>) {
    forall i :: 0 <= i < |vmas| && vmas[i].used ==> vmas[i].len > 0
  }

  // ----- placement

  /** A place for `len` bytes, clear of the heap and of every region. */
  ghost predicate Fits(vmas: seq<Vma>, sz: nat, len: nat, a: nat) {
    && PgRoundUp(sz) <= a && a + len <= HIGH
    && forall i :: 0 <= i < |vmas| ==> Apart(a, len, vmas[i])
  }

  /** There is a place other than 0; for no bytes at all, some gap has to be there. */
  ghost predicate HasRoom(vmas: seq<Vma>, sz: nat, len: nat) {
    if len > 0 then exists a: nat :: a > 0 && Fits(vmas, sz, len, a)
    else exists a: nat :: Fits(vmas, sz, 1, a)
  }

  /** The highest place; for no bytes at all, the end of the highest gap. */
  ghost predicate Highest(vmas: seq<Vma>, sz: nat, len: nat, a: nat) {
    if len > 0 then Fits(vmas, sz, len, a) && forall b: nat :: Fits(vmas, sz, len, b) ==> b <= a
    else a > 0 && Fits(vmas, sz, 1, a - 1) && forall b: nat :: Fits(vmas, sz, 1, b) ==> b < a
  }

  ghost predicate InRange(vmas: seq<Vma>, ord: seq<nat>) {
    forall k :: 0 <= k < |ord| ==> ord[k] < |vmas|
  }

  ghost predicate Sorted(vmas: seq<Vma>, ord: seq<nat>, upTo: nat) {
    && InRange(vmas, ord)
    && forall i, j :: 0 <= i < j < |ord| && i < upTo ==> vmas[ord[i]].addr <= vmas[ord[j]].addr
  }

  /** The used entries. */
  method Collect(vmas: seq<Vma>) returns (ord: seq<nat>)
    ensures InRange(vmas, ord) && forall i :: 0 <= i < |vmas| ==> (i in ord <==> vmas[i].used)
  {
    ord := [];
    for i := 0 to |vmas|
      invariant forall k :: 0 <= k < |ord| ==> ord[k] < i
      invariant forall k :: 0 <= k < i ==> (k in ord <==> vmas[k].used)
    {
      if vmas[i].used { ord := ord + [i]; }
    }
  }

  ghost function Swapped(s: seq<nat>, i: nat, j: nat): (r: seq<nat>)
    requires i < |s| && j < |s|
    ensures multiset(r) == multiset(s)
  {
    s[i := s[j]][j := s[i]]
  }

  ghost predicate LeastSoFar(vmas: seq<Vma>, ord: seq<nat>, i: nat, j: nat) {
    && InRange(vmas, ord) && i < |ord|
    && forall k :: i < k < j && k < |ord| ==> vmas[ord[i]].addr <= vmas[ord[k]].addr
  }

  lemma SwapKeeps(vmas: seq<Vma>, ord: seq<nat>, i: nat, j: nat)
    requires Sorted(vmas, ord, i) && LeastSoFar(vmas, ord, i, j) && i < j < |ord|
    requires vmas[ord[j]].addr < vmas[ord[i]].addr
    ensures Sorted(vmas, Swapped(ord, i, j), i) && LeastSoFar(vmas, Swapped(ord, i, j), i, j + 1)
  {
  }

  method Swap(ord: array<nat>, i: nat, j: nat)
    requires i < ord.Length && j < ord.Length
    modifies ord
    ensures ord[..] == Swapped(old(ord[..]), i, j)
  {
    ord[i], ord[j] := ord[j], ord[i];
  }

  /** The exchange sort of vma_find_addr: its inner loop. */
  method Exchange(vmas: seq<Vma>, ord: array<nat>, i: nat)
    requires Sorted(vmas, ord[..], i) && i < ord.Length
    modifies ord
    ensures Sorted(vmas, ord[..], i) && LeastSoFar(vmas, ord[..], i, ord.Length)
    ensures multiset(ord[..]) == multiset(old(ord[..]))
  {
    hide Swapped;
    for j := i + 1 to ord.Length
      invariant Sorted(vmas, ord[..], i) && LeastSoFar(vmas, ord[..], i, j)
      invariant multiset(ord[..]) == multiset(old(ord[..]))
    {
      assert ord[..][i] == ord[i] && ord[..][j] == ord[j];
      if vmas[ord[j]].addr < vmas[ord[i]].addr {
        SwapKeeps(vmas, ord[..], i, j);
        Swap(ord, i, j);
      }
    }
  }

  method SortByAddr(vmas: seq<Vma>, ord: array<nat>)
    requires InRange(vmas, ord[..])
    modifies ord
    ensures Sorted(vmas, ord[..], ord.Length) && multiset(ord[..]) == multiset(old(ord[..]))
  {
    for i := 0 to ord.Length
      invariant Sorted(vmas, ord[..], i) && multiset(ord[..]) == multiset(old(ord[..]))
    {
      Exchange(vmas, ord, i);
    }
  }

  /** Every place found so far is below `cur` or not above `best`. */
  ghost predicate Bounded(vmas: seq<Vma>, sz: nat, len: nat, cur: nat, best: nat) {
    forall a: nat :: Fits(vmas, sz, len, a) ==> a >= cur || a <= best
  }

  /** The regions before `i` end at or below `cur`; a place found ends where one of them begins. */
  ghost predicate Passed(vmas: seq<Vma>, ord: seq<nat>, i: nat, sz: nat, len: nat, cur: nat, best: nat) {
    && Sorted(vmas, ord, |ord|) && i <= |ord| && PgRoundUp(sz) <= cur
    && (forall k :: 0 <= k < i ==> vmas[ord[k]].addr + vmas[ord[k]].len <= cur)
    && (best > 0 ==> Fits(vmas, sz, len, best) && exists k :: 0 <= k < i && best + len <= vmas[ord[k]].addr)
    && Bounded(vmas, sz, len, cur, best)
  }

  ghost predicate All(vmas: seq<Vma>, ord: seq<nat>) {
    forall i :: 0 <= i < |vmas| && vmas[i].used ==> i in ord
  }

  /** The gap before region `v`: the best place in it, and where the search goes on. */
  function BestBefore(addr: nat, cur: nat, len: nat, best: nat): (r: nat) {
    if addr > cur && addr - cur >= len then addr - len else best
  }

  function CurAfter(v: Vma, cur: nat): (r: nat) {
    if v.addr + v.len > cur then v.addr + v.len else cur
  }

  /** A place that ends where region `i` begins is clear of all of them. */
  lemma GapFits(vmas: seq<Vma>, ord: seq<nat>, i: nat, sz: nat, len: nat, cur: nat, best: nat)
    requires Passed(vmas, ord, i, sz, len, cur, best) && All(vmas, ord) && TableOk(vmas) && i < |ord|
    requires vmas[ord[i]].used && vmas[ord[i]].addr - cur >= len
    ensures Fits(vmas, sz, len, vmas[ord[i]].addr - len)
  {
    var v := vmas[ord[i]];
    assert RegionOk(v);
    forall j | 0 <= j < |vmas| ensures Apart(v.addr - len, len, vmas[j]) {
      if vmas[j].used {
        var k :| 0 <= k < |ord| && ord[k] == j;
        if i < k { assert v.addr <= vmas[ord[k]].addr; }
      }
    }
  }

  lemma PassNext(vmas: seq<Vma>, ord: seq<nat>, i: nat, sz: nat, len: nat, cur: nat, best: nat)
    requires Passed(vmas, ord, i, sz, len, cur, best) && All(vmas, ord) && TableOk(vmas) && i < |ord| && len > 0
    requires vmas[ord[i]].used
    ensures var v := vmas[ord[i]];
            Passed(vmas, ord, i + 1, sz, len, CurAfter(v, cur), BestBefore(v.addr, cur, len, best))
  {
    var v := vmas[ord[i]];
    var cur', best' := CurAfter(v, cur), BestBefore(v.addr, cur, len, best);
    if v.addr - cur >= len { GapFits(vmas, ord, i, sz, len, cur, best); }
    if best > 0 {
      var k :| 0 <= k < i && best + len <= vmas[ord[k]].addr;
      assert vmas[ord[k]].addr <= v.addr;
    }
    assert best <= best' && (best' > 0 ==> best' + len <= v.addr);
    forall a: nat | Fits(vmas, sz, len, a) ensures a >= cur' || a <= best' {
      assert Apart(a, len, v);
    }
  }

  lemma PassEnd(vmas: seq<Vma>, ord: seq<nat>, sz: nat, len: nat, cur: nat, best: nat)
    requires Passed(vmas, ord, |ord|, sz, len, cur, best) && All(vmas, ord) && TableOk(vmas) && len > 0
    ensures var r := BestBefore(HIGH, cur, len, best);
            && (r > 0 ==> Fits(vmas, sz, len, r))
            && (forall a: nat :: Fits(vmas, sz, len, a) ==> a <= r)
  {
    var r := BestBefore(HIGH, cur, len, best);
    if HIGH - cur >= len {
      forall j | 0 <= j < |vmas| ensures Apart(HIGH - len, len, vmas[j]) {
        if vmas[j].used { var k :| 0 <= k < |ord| && ord[k] == j; }
      }
    }
    if best > 0 {
      var k :| 0 <= k < |ord| && best + len <= vmas[ord[k]].addr;
      assert RegionOk(vmas[ord[k]]);
    }
  }

  /** The used entries in the order of their addresses. */
  method InOrder(vmas: seq<Vma>) returns (order: seq<nat>)
    ensures Sorted(vmas, order, |order|) && All(vmas, order)
    ensures forall k :: 0 <= k < |order| ==> order[k] < |vmas| && vmas[order[k]].used
  {
    var list := Collect(vmas);
    var ord := new nat[|list|](k requires 0 <= k < |list| => list[k]);
    assert ord[..] == list;
    SortByAddr(vmas, ord);
    order := ord[..];
    forall i ensures i in order <==> i in list {
      assert i in multiset(order) <==> i in multiset(list);
    }
    forall k | 0 <= k < |order| ensures vmas[order[k]].used { assert order[k] in order; }
  }

  /** The search for no bytes goes like the one for one byte: its places are the ends of those found there. */
  ghost predicate PassedGaps(vmas: seq<Vma>, ord: seq<nat>, i: nat, sz: nat, cur: nat, best: nat) {
    && Passed(vmas, ord, i, sz, 1, cur, if best > 0 then best - 1 else 0)
    && (best == 0 ==> forall a: nat :: Fits(vmas, sz, 1, a) ==> a >= cur)
  }

  ghost predicate PassedAll(vmas: seq<Vma>, ord: seq<nat>, i: nat, sz: nat, len: nat, cur: nat, best: nat) {
    if len > 0 then Passed(vmas, ord, i, sz, len, cur, best) else PassedGaps(vmas, ord, i, sz, cur, best)
  }

  lemma PassAllNext(vmas: seq<Vma>, ord: seq<nat>, i: nat, sz: nat, len: nat, cur: nat, best: nat)
    requires PassedAll(vmas, ord, i, sz, len, cur, best) && All(vmas, ord) && TableOk(vmas) && i < |ord|
    requires ord[i] < |vmas| && vmas[ord[i]].used && (len == 0 ==> best != 1)
    ensures var v := vmas[ord[i]];
            PassedAll(vmas, ord, i + 1, sz, len, CurAfter(v, cur), BestBefore(v.addr, cur, len, best))
  {
    hide TableOk, All, Passed;
    if len > 0 {
      PassNext(vmas, ord, i, sz, len, cur, best);
    } else {
      var v := vmas[ord[i]];
      PassNext(vmas, ord, i, sz, 1, cur, if best > 0 then best - 1 else 0);
      forall a: nat | Fits(vmas, sz, 1, a) ensures Apart(a, 1, v) {
      }
    }
  }

  lemma PassAllEnd(vmas: seq<Vma>, ord: seq<nat>, sz: nat, len: nat, cur: nat, best: nat)
    requires PassedAll(vmas, ord, |ord|, sz, len, cur, best) && All(vmas, ord) && TableOk(vmas)
    requires len == 0 ==> best != 1
    ensures var r := BestBefore(HIGH, cur, len, best);
            && (r > 0 ==> Highest(vmas, sz, len, r))
            && (r == 0 ==> !HasRoom(vmas, sz, len))
  {
    hide TableOk, All, Passed;
    if len > 0 {
      PassEnd(vmas, ord, sz, len, cur, best);
    } else {
      PassEnd(vmas, ord, sz, 1, cur, if best > 0 then best - 1 else 0);
      forall a: nat | Fits(vmas, sz, 1, a) ensures a < HIGH {
      }
    }
  }

  /** vma_find_addr: the highest place there is; 0 if there is none, or none but 0 itself. */
  method FindAddr(vmas: seq<Vma>, sz: nat, len: nat) returns (best: nat)
    requires TableOk(vmas)
    ensures best > 0 ==> Highest(vmas, sz, len, best)
    ensures best == 0 <==> !HasRoom(vmas, sz, len)
    ensures Aligned(len) ==> Aligned(best)
  {
    hide Fits, TableOk, Passed, PassedAll, PgRoundUp, Sorted, All;
    var ord := InOrder(vmas);
    var cur: nat := PgRoundUp(sz);
    best := 0;
    PassStart(vmas, ord, sz, len);
    for i := 0 to |ord|
      invariant PassedAll(vmas, ord, i, sz, len, cur, best) && (Aligned(len) ==> Aligned(best))
    {
      PassAllNext(vmas, ord, i, sz, len, cur, best);
      Regional(vmas, ord[i]);
      var v := vmas[ord[i]];
      if v.addr > cur && v.addr - cur >= len { best := v.addr - len; }
      if v.addr + v.len > cur { cur := v.addr + v.len; }
    }
    PassAllEnd(vmas, ord, sz, len, cur, best);
    if HIGH > cur && HIGH - cur >= len { best := HIGH - len; }
  }

  lemma Sized(vmas: seq<Vma>)
    requires TableOk(vmas)
    ensures |vmas| == MAXVMA
  {
  }

  lemma Regional(vmas: seq<Vma>, i: nat)
    requires TableOk(vmas) && i < |vmas|
    ensures RegionOk(vmas[i])
  {
  }

  lemma PassStart(vmas: seq<Vma>, ord: seq<nat>, sz: nat, len: nat)
    requires Sorted(vmas, ord, |ord|)
    ensures PassedAll(vmas, ord, 0, sz, len, PgRoundUp(sz), 0)
  {
  }

  // ----- mmap and munmap

  datatype File = File(id: nat, readable: bool, writable: bool, inode: bool)

  datatype Option<T> = None | Some(value: T)

  /** The arguments of mmap, decoded; `file` is what the descriptor names. */
  datatype Request = Request(addr: nat, len: nat, read: bool, write: bool, exec: bool, shared: bool, priv: bool,
                             file: Option<File>, off: nat)

  /** The checks mmap makes before it looks for a place. */
  predicate Allowed(leader: bool, q: Request) {
    && leader && q.addr == 0 && q.len != 0 && Aligned(q.off)
    && (q.read || q.write || q.exec) && (q.shared || q.priv) && !(q.shared && q.priv)
    && q.file.Some? && (q.read ==> q.file.value.readable)
    && (q.shared && q.write ==> q.file.value.writable) && q.file.value.inode
  }

  /** PROT_READ, PROT_WRITE and PROT_EXEC. */
  function Prot(q: Request): (bits: nat) {
    (if q.read then 1 else 0) + (if q.write then 2 else 0) + if q.exec then 4 else 0
  }

  /** `v` without the addresses in [from, to), and with the rest as it was. */
  ghost predicate Cut(v: Vma, v': Vma, from: nat, to: nat) {
    && (forall x: nat :: Contains(v', x) <==> Contains(v, x) && !(from <= x < to))
    && (forall x: nat :: Contains(v', x) ==>
          && v'.file == v.file && v'.off + (x - v'.addr) == v.off + (x - v.addr)
          && v'.prot == v.prot && v'.shared == v.shared)
  }

  predicate Overlaps(v: Vma, from: nat, to: nat) {
    v.used && from < v.addr + v.len && v.addr < to
  }

  /** [from, to) would leave a hole in the middle of the region. */
  predicate Hole(v: Vma, from: nat, to: nat) {
    v.used && v.addr < from && to < v.addr + v.len
  }

  function Trimmed(v: Vma, from: nat, to: nat): (r: Vma) {
    var start := if from > v.addr then from else v.addr;
    var stop := if to < v.addr + v.len then to else v.addr + v.len;
    if !Overlaps(v, from, to) || Hole(v, from, to) then v
    else if start == v.addr && stop == v.addr + v.len then NONE
    else if start == v.addr then v.(addr := stop, off := v.off + (stop - start), len := v.addr + v.len - stop)
    else v.(len := start - v.addr)
  }

  lemma TrimCuts(v: Vma, from: nat, to: nat)
    requires from < to && !Hole(v, from, to)
    ensures Cut(v, Trimmed(v, from, to), from, to)
  {
  }

  lemma TrimOk(v: Vma, from: nat, to: nat)
    requires from < to && RegionOk(v) && Aligned(from) && Aligned(to)
    ensures RegionOk(Trimmed(v, from, to))
  {
    if v.used {
      AlignedSum(v.addr, v.len);
      AlignedSum(v.addr + v.len, to);
      AlignedSum(from, v.addr);
    }
    hide Aligned;
  }

  /** A hole in one region leaves the range clear of all others. */
  lemma HoleAlone(vmas: seq<Vma>, from: nat, to: nat, i: nat, j: nat)
    requires TableOk(vmas) && i < MAXVMA && j < MAXVMA && i != j && from < to && Hole(vmas[i], from, to)
    ensures !Overlaps(vmas[j], from, to)
  {
    assert Apart(vmas[i].addr, vmas[i].len, vmas[j]);
  }

  /** Pages whose first byte is not in [from, to). */
  function Outside(pages: set<nat>, from: nat, to: nat): (r: set<nat>) {
    set p | p in pages && !(from <= p * PGSIZE < to)
  }

  ghost predicate InSome(vmas: seq<Vma>, x: nat) {
    exists i :: 0 <= i < |vmas| && Contains(vmas[i], x)
  }

  /** The first `n` regions have lost [from, to); the others are as they were. */
  ghost predicate CutUpTo(vmas: seq<Vma>, vmas': seq<Vma>, n: nat, from: nat, to: nat) {
    && |vmas| == |vmas'| == MAXVMA && n <= MAXVMA
    && (forall k :: 0 <= k < n ==> !Hole(vmas[k], from, to) && vmas'[k] == Trimmed(vmas[k], from, to))
    && (forall k :: n <= k < MAXVMA ==> vmas'[k] == vmas[k])
  }

  lemma CutOk(vmas: seq<Vma>, vmas': seq<Vma>, from: nat, to: nat)
    requires TableOk(vmas) && CutUpTo(vmas, vmas', MAXVMA, from, to)
    requires from < to && Aligned(from) && Aligned(to)
    ensures TableOk(vmas') && forall i :: 0 <= i < MAXVMA ==> Cut(vmas[i], vmas'[i], from, to)
    ensures NoneEmpty(vmas) ==> NoneEmpty(vmas')
  {
    forall i | 0 <= i < MAXVMA ensures Cut(vmas[i], vmas'[i], from, to) && RegionOk(vmas'[i]) {
      assert RegionOk(vmas[i]);
      TrimCuts(vmas[i], from, to);
      TrimOk(vmas[i], from, to);
    }
    forall i, j | 0 <= i < MAXVMA && 0 <= j < MAXVMA && i != j && vmas'[i].used
      ensures Apart(vmas'[i].addr, vmas'[i].len, vmas'[j]) {
      assert vmas[i].used ==> Apart(vmas[i].addr, vmas[i].len, vmas[j]);
    }
  }

  /** The page was in the part of the region that was cut out. */
  predicate Gone(v: Vma, p: nat, from: nat, to: nat) {
    Contains(v, p * PGSIZE) && from <= p * PGSIZE < to
  }

  ghost predicate PagesLeft(vmas: seq<Vma>, had: set<nat>, pages: set<nat>, n: nat, from: nat, to: nat) {
    && n <= |vmas|
    && forall p :: p in pages <==> p in had && !exists k :: 0 <= k < n && Gone(vmas[k], p, from, to)
  }

  lemma PagesNone(vmas: seq<Vma>, had: set<nat>, from: nat, to: nat)
    ensures PagesLeft(vmas, had, had, 0, from, to)
  {
  }

  lemma PagesNext(vmas: seq<Vma>, had: set<nat>, pages: set<nat>, n: nat, from: nat, to: nat)
    requires PagesLeft(vmas, had, pages, n, from, to) && n < |vmas|
    ensures var v := vmas[n];
            var start := if from > v.addr then from else v.addr;
            var stop := if to < v.addr + v.len then to else v.addr + v.len;
            PagesLeft(vmas, had, if Overlaps(v, from, to) then Outside(pages, start, stop) else pages, n + 1, from, to)
  {
  }

  lemma PagesCut(vmas: seq<Vma>, vmas': seq<Vma>, had: set<nat>, pages: set<nat>, from: nat, to: nat)
    requires |vmas| == |vmas'| && PagesLeft(vmas, had, pages, |vmas|, from, to)
    requires forall p :: p in had ==> InSome(vmas, p * PGSIZE)
    requires forall i :: 0 <= i < |vmas| ==> Cut(vmas[i], vmas'[i], from, to)
    ensures forall p :: p in pages <==> p in had && !(from <= p * PGSIZE < to)
    ensures forall p :: p in pages ==> InSome(vmas', p * PGSIZE)
  {
    forall p | p in had ensures p in pages <==> !(from <= p * PGSIZE < to) {
      var k :| 0 <= k < |vmas| && Contains(vmas[k], p * PGSIZE);
      assert from <= p * PGSIZE < to ==> Gone(vmas[k], p, from, to);
    }
    forall p | p in pages ensures InSome(vmas', p * PGSIZE) {
      var k :| 0 <= k < |vmas| && Contains(vmas[k], p * PGSIZE);
      assert Cut(vmas[k], vmas'[k], from, to);
      assert Contains(vmas'[k], p * PGSIZE);
    }
  }

  lemma HighestFits(vmas: seq<Vma>, sz: nat, len: nat, a: nat)
    requires Highest(vmas, sz, len, a)
    ensures Fits(vmas, sz, len, a)
  {
    if len == 0 {
      forall i | 0 <= i < |vmas| ensures Apart(a, 0, vmas[i]) { assert Apart(a - 1, 1, vmas[i]); }
    }
  }

  lemma PlaceOk(vmas: seq<Vma>, idx: nat, sz: nat, v: Vma, pages: set<nat>)
    requires TableOk(vmas) && idx < MAXVMA && !vmas[idx].used && v.used && Fits(vmas, sz, v.len, v.addr)
    requires Aligned(v.len) && Aligned(v.addr)
    requires forall p :: p in pages ==> InSome(vmas, p * PGSIZE)
    ensures TableOk(vmas[idx := v]) && forall p :: p in pages ==> InSome(vmas[idx := v], p * PGSIZE)
    ensures NoneEmpty(vmas[idx := v]) <==> NoneEmpty(vmas) && v.len > 0
  {
    var vmas' := vmas[idx := v];
    forall p | p in pages ensures InSome(vmas', p * PGSIZE) {
      var k :| 0 <= k < |vmas| && Contains(vmas[k], p * PGSIZE);
      assert Contains(vmas'[k], p * PGSIZE);
    }
    assert vmas'[idx] == v;
    forall i | 0 <= i < |vmas| && i != idx ensures vmas'[i] == vmas[i] {
    }
  }

  /** Exactly when mmap succeeds. */
  ghost predicate Placeable(leader: bool, vmas: seq<Vma>, sz: nat, q: Request) {
    && Allowed(leader, q) && (exists i :: 0 <= i < |vmas| && !vmas[i].used)
    && HasRoom(vmas, sz, PgRoundUp(q.len))
  }

  ghost predicate Placed(vmas: seq<Vma>, vmas': seq<Vma>, sz: nat, q: Request, addr: nat) {
    && addr > 0 && Aligned(addr) && Highest(vmas, sz, PgRoundUp(q.len), addr) && q.file.Some?
    && exists i :: && 0 <= i < |vmas| && !vmas[i].used
                   && vmas' == vmas[i := Vma(true, addr, PgRoundUp(q.len), Prot(q), q.shared, q.off, q.file.value.id)]
  }

  /** The regions of a process, and the pages mapped in them. */
  class Regions {
    var vmas: seq<Vma>
    var pages: set<nat>
    var refs: multiset<nat>   // references to open files: filedup and fileclose

    ghost predicate Valid()
      reads this
    {
      TableOk(vmas) && refs == FilesOf(vmas) && forall p :: p in pages ==> InSome(vmas, p * PGSIZE)
    }

    constructor ()
      ensures Valid() && NoneEmpty(vmas) && forall i :: 0 <= i < MAXVMA ==> !vmas[i].used
    {
      vmas, pages, refs := seq(MAXVMA, i => NONE), {}, multiset{};
      new;
      FilesNone(vmas);
    }

    method AllocSlot() returns (idx: int)
      requires Valid()
      ensures -1 <= idx < MAXVMA
      ensures idx >= 0 ==> !vmas[idx].used
      ensures idx < 0 ==> forall i :: 0 <= i < MAXVMA ==> vmas[i].used
    {
      for i := 0 to MAXVMA
        invariant forall k :: 0 <= k < i ==> vmas[k].used
      {
        if !vmas[i].used { return i; }
      }
      return -1;
    }

    /**
     The new region is the highest place that fits; nothing else changes. A length above U64 - PGSIZE rounds to
     0: if there is a gap anywhere, mmap then succeeds with a region that has no addresses.
     */
    method Mmap(leader: bool, sz: nat, q: Request) returns (r: Option<nat>)
      requires Valid() && q.len < U64
      modifies this`vmas, this`refs
      ensures Valid()
      ensures r.Some? <==> Placeable(leader, old(vmas), sz, q)
      ensures r.None? <==>
                || !leader || q.addr != 0 || q.len == 0 || q.off % 4096 != 0
                || (!q.read && !q.write && !q.exec) || q.shared == q.priv
                || q.file.None? || !q.file.value.inode
                || (q.read && !q.file.value.readable) || (q.shared && q.write && !q.file.value.writable)
                || (forall i :: 0 <= i < MAXVMA ==> old(vmas)[i].used) || !HasRoom(old(vmas), sz, PgRoundUp(q.len))
      ensures if r.Some? then Placed(old(vmas), vmas, sz, q, r.value) else vmas == old(vmas)
      ensures NoneEmpty(vmas) <==>
                old(NoneEmpty(vmas)) && !(q.len > U64 - PGSIZE && Placeable(leader, old(vmas), sz, q))
    {
      hide TableOk, Fits, Highest, HasRoom, PgRoundUp, InSome, NoneEmpty, FilesOf;
      RoundsUp(q.len);
      Sized(vmas);
      if !Allowed(leader, q) { return None; }
      var len := PgRoundUp(q.len);
      var idx := AllocSlot();
      if idx < 0 { return None; }
      var addr := FindAddr(vmas, sz, len);
      if addr == 0 { return None; }
      var v := Vma(true, addr, len, Prot(q), q.shared, q.off, q.file.value.id);
      HighestFits(vmas, sz, len, addr);
      PlaceOk(vmas, idx, sz, v, pages);
      FilesUpdate(vmas, idx, v);
      vmas, refs := vmas[idx := v], refs + multiset{v.file};
      r := Some(addr);
    }

    /** What proc_munmap does to a region that the range overlaps without making a hole. */
    method Trim(i: nat, addr: nat, end: nat)
      requires i < |vmas| && Overlaps(vmas[i], addr, end) && !Hole(vmas[i], addr, end) && refs == FilesOf(vmas)
      modifies this
      ensures vmas == old(vmas)[i := Trimmed(old(vmas)[i], addr, end)] && refs == FilesOf(vmas)
      ensures var v := old(vmas)[i];
              pages == Outside(old(pages), if addr > v.addr then addr else v.addr,
                               if end < v.addr + v.len then end else v.addr + v.len)
    {
      hide FilesOf, Outside;
      FilesUpdate(vmas, i, Trimmed(vmas[i], addr, end));
      var v := vmas[i];
      var vend := v.addr + v.len;
      var start := if addr > v.addr then addr else v.addr;
      var stop := if end < vend then end else vend;
      pages := Outside(pages, start, stop);   // uvmunmap
      if start == v.addr && stop == vend {
        refs := refs - multiset{v.file};   // fileclose
        vmas := vmas[i := NONE];
      } else if start == v.addr {
        vmas := vmas[i := v.(addr := stop, off := v.off + (stop - start), len := vend - stop)];
      } else {
        vmas := vmas[i := v.(len := start - v.addr)];
      }
    }

    /** proc_munmap: takes exactly [addr, addr + len) away, or changes nothing. */
    method ProcMunmap(addr: nat, len: nat) returns (r: int)
      requires Valid() && addr < U64 && len < U64 && Aligned(len)
      modifies this
      ensures Valid() && (old(NoneEmpty(vmas)) ==> NoneEmpty(vmas)) && (r == 0 || r == -1)
      ensures r == -1 ==> vmas == old(vmas) && pages == old(pages)
      ensures r == 0 <==> && Aligned(addr) && len > 0 && addr + len < U64
                          && (exists i :: 0 <= i < MAXVMA && Overlaps(old(vmas)[i], addr, addr + len))
                          && (forall i :: 0 <= i < MAXVMA ==> !Hole(old(vmas)[i], addr, addr + len))
      ensures r == 0 ==> && (forall i :: 0 <= i < MAXVMA ==> Cut(old(vmas)[i], vmas[i], addr, addr + len))
                         && (forall p :: p in pages <==> p in old(pages) && !(addr <= p * PGSIZE < addr + len))
    {
      hide TableOk, Cut, Outside, PgRoundUp, PagesLeft, InSome, FilesOf;
      var end := (addr + len) % U64;
      r := -1;
      if !Aligned(addr) || len == 0 || end < addr { return; }
      ghost var was, had := vmas, pages;
      Sized(was);
      PagesNone(was, had, addr, end);
      var changed := false;
      for i := 0 to MAXVMA
        invariant CutUpTo(was, vmas, i, addr, end) && PagesLeft(was, had, pages, i, addr, end)
        invariant changed <==> exists k :: 0 <= k < i && Overlaps(was[k], addr, end)
        invariant !changed ==> vmas == was && pages == had
        invariant refs == FilesOf(vmas)
      {
        PagesNext(was, had, pages, i, addr, end);
        var v := vmas[i];
        if !v.used { continue; }
        var vend := v.addr + v.len;
        if end <= v.addr || addr >= vend { continue; }
        var start := if addr > v.addr then addr else v.addr;
        var stop := if end < vend then end else vend;
        if start > v.addr && stop < vend {
          forall k | 0 <= k < i ensures !Overlaps(was[k], addr, end) { HoleAlone(was, addr, end, i, k); }
          assert !changed;
          return -1;
        }
        Trim(i, addr, end);
        changed := true;
      }
      CutOk(was, vmas, addr, end);
      PagesCut(was, vmas, had, pages, addr, end);
      r := if changed then 0 else -1;
    }

    /** sys_munmap: the length is rounded up to pages first. */
    method Munmap(leader: bool, addr: nat, len: nat) returns (r: int)
      requires Valid() && addr < U64 && len < U64
      modifies this
      ensures Valid() && (old(NoneEmpty(vmas)) ==> NoneEmpty(vmas)) && (r == 0 || r == -1)
      ensures r == -1 ==> vmas == old(vmas) && pages == old(pages)
      ensures r == 0 <==> && leader && Aligned(addr) && PgRoundUp(len) > 0 && addr + PgRoundUp(len) < U64
                          && (exists i :: 0 <= i < MAXVMA && Overlaps(old(vmas)[i], addr, addr + PgRoundUp(len)))
                          && (forall i :: 0 <= i < MAXVMA ==> !Hole(old(vmas)[i], addr, addr + PgRoundUp(len)))
      ensures r == 0 ==> && (forall i :: 0 <= i < MAXVMA ==> Cut(old(vmas)[i], vmas[i], addr, addr + PgRoundUp(len)))
                         && (forall p :: p in pages <==>
                                           p in old(pages) && !(addr <= p * PGSIZE < addr + PgRoundUp(len)))
    {
      hide TableOk, Cut;
      if !leader || !Aligned(addr) || len == 0 { return -1; }
      r := ProcMunmap(addr, PgRoundUp(len));
    }
  }

  /** In an empty table a length that rounds to 0 gets a region without addresses at HIGH. */
  method MmapTooLong() returns (regions: Regions, r: Option<nat>)
    ensures regions.Valid() && r == Some(HIGH) && !NoneEmpty(regions.vmas)
  {
    hide PgRoundUp;
    regions := new Regions();
    var q := Request(0, U64 - 1, true, false, false, false, true, Some(File(1, true, false, true)), 0);
    RoundsUp(q.len);
    RoundsUp(0);
    ghost var was := regions.vmas;
    assert forall a: nat :: Fits(was, 0, 1, a) <==> a < HIGH;
    assert !was[0].used && Fits(was, 0, 1, HIGH - 1);
    assert Allowed(true, q) && HasRoom(was, 0, PgRoundUp(q.len));
    r := regions.Mmap(true, 0, q);
    assert Highest(was, 0, 0, r.value);
  }
}
