/**
 Copy-on-write and lazily allocated memory of xv6-riscv/kernel/vm.c over a flat page map,
 and its equivalence with a machine that copies and zeroes every page at once.

 A slot is a virtual page of an address space, named by the root of its page table. `count`
 is kmem.refcnt; `kern` counts the references the kernel itself holds.
 */
module Cow {
  import Counting

  type Bytes = seq<int>

  datatype Slot = Slot(root: nat, vpn: nat)

  datatype Pte = Pte(v: bool, ppn: nat, r: bool, w: bool, x: bool, u: bool, cow: bool)

  /** `size[root]` is the size of an address space in pages, `zero` a page of zeroes. */
  datatype Mem = Mem(flat: map<Slot, Pte>, count: map<nat, nat>, data: map<nat, Bytes>, size: map<nat, nat>)

  function ZeroPage(): (page: Bytes)
    ensures |page| == 4096 && forall i :: 0 <= i < 4096 ==> page[i] == 0
  {
    seq(4096, _ => 0)
  }

  // ----- reference counts

  ghost function Mappers(flat: map<Slot, Pte>, p: nat): (s: set<Slot>) {
    set t | t in flat && flat[t].ppn == p
  }

  ghost function Get(m: map<nat, nat>, p: nat): (c: nat) {
    if p in m then m[p] else 0
  }

  /** Every page is counted once per page-table entry that maps it and once per kernel reference. */
  ghost predicate Conserved(flat: map<Slot, Pte>, count: map<nat, nat>, kern: map<nat, nat>) {
    && (forall p :: p in count ==> count[p] > 0)
    && (forall p :: Get(count, p) == |Mappers(flat, p)| + Get(kern, p))
  }

  ghost function Inc(count: map<nat, nat>, p: nat): (r: map<nat, nat>) {
    count[p := Get(count, p) + 1]
  }

  ghost function Dec(count: map<nat, nat>, p: nat): (r: map<nat, nat>) {
    if Get(count, p) <= 1 then count - {p} else count[p := count[p] - 1]
  }

  lemma MappersSet(flat: map<Slot, Pte>, s: Slot, pte: Pte, p: nat)
    ensures Mappers(flat[s := pte], p) ==
            if pte.ppn == p then Mappers(flat, p) + {s} else Mappers(flat, p) - {s}
  {
  }

  lemma MapperCounted(flat: map<Slot, Pte>, count: map<nat, nat>, kern: map<nat, nat>, s: Slot)
    requires Conserved(flat, count, kern) && s in flat
    ensures flat[s].ppn in count
  {
    assert s in Mappers(flat, flat[s].ppn);
    assert Get(count, flat[s].ppn) > 0;
  }

  lemma TwoMappers(flat: map<Slot, Pte>, s: Slot, t: Slot)
    requires s in flat && t in flat && s != t && flat[t].ppn == flat[s].ppn
    ensures |Mappers(flat, flat[s].ppn)| >= 2
  {
    var both := {s, t};
    Counting.SubsetSize(both, Mappers(flat, flat[s].ppn));
  }

  /** A page of count 1 that `s` maps has no other mapping. */
  lemma SoleMapper(flat: map<Slot, Pte>, count: map<nat, nat>, kern: map<nat, nat>, s: Slot, t: Slot)
    requires Conserved(flat, count, kern) && s in flat && t in flat && s != t
    requires Get(count, flat[s].ppn) <= 1
    ensures flat[t].ppn != flat[s].ppn
  {
    assert Get(count, flat[s].ppn) == |Mappers(flat, flat[s].ppn)| + Get(kern, flat[s].ppn);
    if flat[t].ppn == flat[s].ppn { TwoMappers(flat, s, t); }
  }

  /** Mapping a new slot onto a page together with counting it. */
  lemma ConservedAdd(flat: map<Slot, Pte>, count: map<nat, nat>, kern: map<nat, nat>, s: Slot, pte: Pte)
    requires Conserved(flat, count, kern) && s !in flat
    ensures Conserved(flat[s := pte], Inc(count, pte.ppn), kern)
  {
    forall p ensures Get(Inc(count, pte.ppn), p) == |Mappers(flat[s := pte], p)| + Get(kern, p) {
      MappersSet(flat, s, pte, p);
      assert s !in Mappers(flat, p);
      assert Get(count, p) == |Mappers(flat, p)| + Get(kern, p);
    }
  }

  /** Removing a slot together with releasing its page. */
  lemma ConservedRemove(flat: map<Slot, Pte>, count: map<nat, nat>, kern: map<nat, nat>, s: Slot)
    requires Conserved(flat, count, kern) && s in flat
    ensures Conserved(flat - {s}, Dec(count, flat[s].ppn), kern)
  {
    MapperCounted(flat, count, kern, s);
    forall p ensures Get(Dec(count, flat[s].ppn), p) == |Mappers(flat - {s}, p)| + Get(kern, p) {
      assert Mappers(flat - {s}, p) == Mappers(flat, p) - {s};
      assert Get(count, p) == |Mappers(flat, p)| + Get(kern, p);
      assert s in Mappers(flat, p) <==> p == flat[s].ppn;
    }
  }

  /** Changing the permissions of a slot. */
  lemma ConservedFlags(flat: map<Slot, Pte>, count: map<nat, nat>, kern: map<nat, nat>, s: Slot, pte: Pte)
    requires Conserved(flat, count, kern) && s in flat && pte.ppn == flat[s].ppn
    ensures Conserved(flat[s := pte], count, kern)
  {
    forall p ensures Get(count, p) == |Mappers(flat[s := pte], p)| + Get(kern, p) {
      MappersSet(flat, s, pte, p);
      assert Get(count, p) == |Mappers(flat, p)| + Get(kern, p);
      assert Mappers(flat[s := pte], p) == Mappers(flat, p);
    }
  }

  // ----- the invariant

  /** A writable page is mapped nowhere else, and every mapped page has bytes. */
  ghost predicate SlotOk(m: Mem, s: Slot) {
    && s in m.flat && m.flat[s].v
    && m.flat[s].ppn in m.data && m.flat[s].ppn in m.count
    && (m.flat[s].w ==> m.count[m.flat[s].ppn] == 1 && !m.flat[s].cow)
  }

  ghost predicate Inv(m: Mem, kern: map<nat, nat>) {
    && Conserved(m.flat, m.count, kern)
    && (forall s :: s in m.flat ==> SlotOk(m, s))
  }

  // ----- steps of the copy-on-write machine

  /** kalloc returned `p`, which nobody references. */
  ghost predicate Fresh(m: Mem, p: nat) {
    p !in m.count
  }

  ghost function Unshared(pte: Pte): (r: Pte) {
    pte.(w := true, cow := false)
  }

  ghost function Shared(pte: Pte): (r: Pte) {
    if pte.w then pte.(w := false, cow := true) else pte
  }

  /** One iteration of uvmcopy on a mapped page. */
  ghost function Share(m: Mem, from: nat, to: nat, vpn: nat): (m': Mem) {
    var s, t := Slot(from, vpn), Slot(to, vpn);
    if s !in m.flat || t in m.flat then m else
    var pte := Shared(m.flat[s]);
    m.(flat := m.flat[s := pte][t := pte], count := Inc(m.count, pte.ppn))
  }

  /** uvmcopy after its first `k` pages. */
  ghost function ShareUpTo(m: Mem, from: nat, to: nat, k: nat): (m': Mem) {
    if k == 0 then m else Share(ShareUpTo(m, from, to, k - 1), from, to, k - 1)
  }

  ghost function Unmap(m: Mem, s: Slot): (m': Mem) {
    if s !in m.flat then m else
    m.(flat := m.flat - {s}, count := Dec(m.count, m.flat[s].ppn))
  }

  /** uvmunmap with do_free of the pages [lo, hi). */
  ghost function UnmapRange(m: Mem, root: nat, lo: nat, hi: nat): (m': Mem)
    decreases hi
  {
    if hi <= lo then m else Unmap(UnmapRange(m, root, lo, hi - 1), Slot(root, hi - 1))
  }

  /** A zeroed page or file page at a free slot. */
  ghost function MapFresh(m: Mem, s: Slot, pte: Pte, bytes: Bytes): (m': Mem) {
    m.(flat := m.flat[s := pte], count := Inc(m.count, pte.ppn), data := m.data[pte.ppn := bytes])
  }

  /** vmfault for a store to a copy-on-write page; `p` is the page kalloc returns if one is needed. */
  ghost function BreakCow(m: Mem, s: Slot, p: nat): (m': Mem)
    requires s in m.flat
  {
    var pte := m.flat[s];
    if Get(m.count, pte.ppn) == 1 then m.(flat := m.flat[s := Unshared(pte)])
    else m.(flat := m.flat[s := Unshared(pte).(ppn := p)],
            count := Dec(Inc(m.count, p), pte.ppn),
            data := if pte.ppn in m.data then m.data[p := m.data[pte.ppn]] else m.data)
  }

  /** The page-table entry of a lazily allocated heap page. */
  ghost function LazyPte(p: nat): (pte: Pte) {
    Pte(true, p, true, true, false, true, false)
  }

  // ----- every step keeps the invariant

  lemma ShareInv(m: Mem, kern: map<nat, nat>, from: nat, to: nat, vpn: nat)
    requires Inv(m, kern) && from != to
    ensures Inv(Share(m, from, to, vpn), kern)
  {
    var s, t := Slot(from, vpn), Slot(to, vpn);
    if s in m.flat && t !in m.flat {
      var pte := Shared(m.flat[s]);
      var mid := m.flat[s := pte];
      ConservedFlags(m.flat, m.count, kern, s, pte);
      ConservedAdd(mid, m.count, kern, t, pte);
      var m' := Share(m, from, to, vpn);
      assert SlotOk(m, s);
      forall x | x in m'.flat ensures SlotOk(m', x) {
        if x != s && x != t {
          assert SlotOk(m, x);
          if m.flat[x].w { SoleMapper(m.flat, m.count, kern, x, s); }
        }
      }
    }
  }

  lemma {:induction false} ShareUpToInv(m: Mem, kern: map<nat, nat>, from: nat, to: nat, k: nat)
    requires Inv(m, kern) && from != to
    ensures Inv(ShareUpTo(m, from, to, k), kern)
  {
    if k > 0 {
      ShareUpToInv(m, kern, from, to, k - 1);
      ShareInv(ShareUpTo(m, from, to, k - 1), kern, from, to, k - 1);
    }
  }

  lemma UnmapInv(m: Mem, kern: map<nat, nat>, s: Slot)
    requires Inv(m, kern)
    ensures Inv(Unmap(m, s), kern)
  {
    if s in m.flat {
      ConservedRemove(m.flat, m.count, kern, s);
      var m' := Unmap(m, s);
      forall x | x in m'.flat ensures SlotOk(m', x) {
        assert SlotOk(m, x) && SlotOk(m, s);
        MapperCounted(m'.flat, m'.count, kern, x);
      }
    }
  }

  lemma {:induction false} UnmapRangeInv(m: Mem, kern: map<nat, nat>, root: nat, lo: nat, hi: nat)
    requires Inv(m, kern)
    ensures Inv(UnmapRange(m, root, lo, hi), kern)
    decreases hi
  {
    if lo < hi {
      UnmapRangeInv(m, kern, root, lo, hi - 1);
      UnmapInv(UnmapRange(m, root, lo, hi - 1), kern, Slot(root, hi - 1));
    }
  }

  lemma MapFreshInv(m: Mem, kern: map<nat, nat>, s: Slot, pte: Pte, bytes: Bytes)
    requires Inv(m, kern) && s !in m.flat && Fresh(m, pte.ppn) && pte.v && !pte.cow
    ensures Inv(MapFresh(m, s, pte, bytes), kern)
  {
    ConservedAdd(m.flat, m.count, kern, s, pte);
    var m' := MapFresh(m, s, pte, bytes);
    forall x | x in m'.flat ensures SlotOk(m', x) {
      if x != s { assert SlotOk(m, x); }
    }
  }

  lemma BreakCowInv(m: Mem, kern: map<nat, nat>, s: Slot, p: nat)
    requires Inv(m, kern) && s in m.flat && Fresh(m, p)
    ensures Inv(BreakCow(m, s, p), kern)
  {
    var pte := m.flat[s];
    var m' := BreakCow(m, s, p);
    assert SlotOk(m, s);
    if m.count[pte.ppn] == 1 {
      ConservedFlags(m.flat, m.count, kern, s, Unshared(pte));
      forall x | x in m'.flat ensures SlotOk(m', x) { assert SlotOk(m, x); }
    } else {
      MovedConserved(m, kern, s, p);
      forall x | x in m'.flat ensures SlotOk(m', x) {
        assert SlotOk(m, x);
        if x != s { MapperCounted(m'.flat, m'.count, kern, x); }
      }
    }
  }

  lemma MovedConserved(m: Mem, kern: map<nat, nat>, s: Slot, p: nat)
    requires Inv(m, kern) && s in m.flat && Fresh(m, p) && m.flat[s].ppn in m.count && m.count[m.flat[s].ppn] != 1
    ensures Conserved(BreakCow(m, s, p).flat, BreakCow(m, s, p).count, kern)
  {
    var pte := m.flat[s];
    var off := m.flat - {s};
    ConservedRemove(m.flat, m.count, kern, s);
    ConservedAdd(off, Dec(m.count, pte.ppn), kern, s, Unshared(pte).(ppn := p));
    assert off[s := Unshared(pte).(ppn := p)] == m.flat[s := Unshared(pte).(ppn := p)];
    assert Inc(Dec(m.count, pte.ppn), p) == Dec(Inc(m.count, p), pte.ppn);
  }

  // ----- what programs see

  datatype Page = Page(bytes: Bytes, w: bool, r: bool, x: bool, u: bool)

  /** The machine without sharing or laziness: every page of every address space exists. */
  datatype Eager = Eager(pages: map<Slot, Page>, size: map<nat, nat>)

  ghost function HeapPage(): (page: Page) {
    Page(ZeroPage(), true, true, false, true)
  }

  ghost predicate InHeap(size: map<nat, nat>, s: Slot) {
    s.root in size && s.vpn < size[s.root]
  }

  ghost function Heap(size: map<nat, nat>): (h: set<Slot>)
    ensures forall s :: s in h <==> InHeap(size, s)
  {
    set root, v | root in size && 0 <= v < size[root] :: Slot(root, v)
  }

  ghost function View(m: Mem, s: Slot): (page: Page) {
    if s in m.flat && m.flat[s].ppn in m.data then
      var pte := m.flat[s];
      Page(m.data[pte.ppn], pte.w || pte.cow, pte.r, pte.x, pte.u)
    else HeapPage()
  }

  ghost predicate Visible(m: Mem, s: Slot) {
    s in m.flat || InHeap(m.size, s)
  }

  ghost function Abs(m: Mem): (e: Eager) {
    Eager(map s | s in m.flat.Keys + Heap(m.size) :: View(m, s), m.size)
  }

  lemma AbsEqual(m: Mem, e: Eager)
    requires m.size == e.size
    requires forall s :: s in e.pages <==> Visible(m, s)
    requires forall s :: Visible(m, s) ==> e.pages[s] == View(m, s)
    ensures Abs(m) == e
  {
    assert Abs(m).pages.Keys == e.pages.Keys;
  }

  // ----- events

  datatype Event =
    | Fork(from: nat, to: nat)
    | ForkFails(from: nat, to: nat, k: nat)                  // out of memory at page k
    | Fault(s: Slot, write: bool, p: nat)                    // page fault; p is what kalloc returns
    | FileFault(s: Slot, pte: Pte, bytes: Bytes)             // page fault in a mapped file
    | Store(s: Slot, bytes: Bytes)                           // a store or copyout that needs no fault
    | Grow(root: nat, n: nat)
    | Shrink(root: nat, n: nat)
    | Munmap(root: nat, lo: nat, hi: nat)

  ghost predicate Enabled(m: Mem, e: Event) {
    match e
    case Fork(from, to) => from in m.size && Unborn(m, to)
    case ForkFails(from, to, k) => from in m.size && Unborn(m, to)
    case Fault(s, write, p) => Fresh(m, p)
    case FileFault(s, pte, bytes) => !Visible(m, s) && Fresh(m, pte.ppn) && pte.v && !pte.cow
    case Store(s, bytes) => s in m.flat && m.flat[s].w
    case Grow(root, n) => root in m.size ==> m.size[root] <= n
    case Shrink(root, n) => root in m.size && n <= m.size[root]
    case Munmap(root, lo, hi) => true
  }

  ghost predicate Unborn(m: Mem, root: nat) {
    root !in m.size && forall s :: s in m.flat ==> s.root != root
  }

  /** Marks a page copy-on-write, as uvmcopy does before it tries to map it in the child. */
  ghost function Mark(m: Mem, s: Slot): (m': Mem) {
    if s in m.flat then m.(flat := m.flat[s := Shared(m.flat[s])]) else m
  }

  ghost function Next(m: Mem, e: Event): (m': Mem)
    requires Enabled(m, e)
  {
    match e
    case Fork(from, to) =>
      ShareUpTo(m, from, to, m.size[from]).(size := m.size[to := m.size[from]])
    case ForkFails(from, to, k) =>
      UnmapRange(Mark(ShareUpTo(m, from, to, k), Slot(from, k)), to, 0, k)
    case Fault(s, write, p) =>
      if s in m.flat then (if write && m.flat[s].cow then BreakCow(m, s, p) else m)
      else if InHeap(m.size, s) then MapFresh(m, s, LazyPte(p), ZeroPage())
      else m
    case FileFault(s, pte, bytes) => MapFresh(m, s, pte, bytes)
    case Store(s, bytes) => m.(data := m.data[m.flat[s].ppn := bytes])
    case Grow(root, n) => m.(size := m.size[root := n])
    case Shrink(root, n) => UnmapRange(m, root, n, m.size[root]).(size := m.size[root := n])
    case Munmap(root, lo, hi) => UnmapRange(m, root, lo, hi)
  }

  ghost function Range(root: nat, lo: nat, hi: nat): (r: set<Slot>)
    ensures forall s :: s in r <==> s.root == root && lo <= s.vpn < hi
  {
    set v: nat | lo <= v < hi :: Slot(root, v)
  }

  ghost function Copies(pages: map<Slot, Page>, from: nat, to: nat, n: nat): (r: map<Slot, Page>) {
    map s | s in Range(to, 0, n) && Slot(from, s.vpn) in pages :: pages[Slot(from, s.vpn)]
  }

  ghost function Zeroes(root: nat, n: nat): (r: map<Slot, Page>) {
    map s | s in Range(root, 0, n) :: HeapPage()
  }

  /** Pages of a range disappear; those that belong to the heap become zero pages again. */
  ghost function Cleared(e: Eager, gone: set<Slot>): (r: map<Slot, Page>) {
    map s | s in e.pages && (s !in gone || InHeap(e.size, s)) :: if s in gone then HeapPage() else e.pages[s]
  }

  /** 4096 zero bytes that the program may read and write. */
  ghost predicate Blank(page: Page) {
    && |page.bytes| == 4096 && (forall k :: 0 <= k < 4096 ==> page.bytes[k] == 0)
    && page.r && page.w && !page.x && page.u
  }

  /** The same events on the eager machine: faults do nothing, fork copies. */
  ghost function EagerNext(e: Eager, ev: Event): (e': Eager) {
    match ev
    case Fork(from, to) =>
      if from !in e.size then e else
      Eager(e.pages + Copies(e.pages, from, to, e.size[from]), e.size[to := e.size[from]])
    case ForkFails(from, to, k) => e
    case Fault(s, write, p) => e
    case FileFault(s, pte, bytes) => e.(pages := e.pages[s := Page(bytes, pte.w, pte.r, pte.x, pte.u)])
    case Store(s, bytes) => if s in e.pages then e.(pages := e.pages[s := e.pages[s].(bytes := bytes)]) else e
    case Grow(root, n) =>
      Eager(Zeroes(root, n) + e.pages, e.size[root := n])
    case Shrink(root, n) =>
      if root !in e.size then e else
      Eager(e.pages - Range(root, n, e.size[root]), e.size[root := n])
    case Munmap(root, lo, hi) =>
      e.(pages := Cleared(e, Range(root, lo, hi)))
  }

  /** fork, page by page: the child has what the parent has below its size, and everybody else what they had. */
  lemma ForkPage(e: Eager, from: nat, to: nat, s: Slot)
    requires from in e.size && from != to && forall x :: x in e.pages ==> x.root != to
    ensures var now := EagerNext(e, Fork(from, to));
            var mine := s.root == to;
            && now.size == e.size[to := e.size[from]]
            && (s in now.pages <==> if mine then s.vpn < e.size[from] && Slot(from, s.vpn) in e.pages else s in e.pages)
            && (s in now.pages ==> now.pages[s] == e.pages[if mine then Slot(from, s.vpn) else s])
  {
  }

  /** Growing and shrinking, page by page: new pages are blank, and exactly those above the new size go. */
  lemma ResizePage(e: Eager, root: nat, n: nat, s: Slot)
    ensures var now := EagerNext(e, Grow(root, n));
            && now.size == e.size[root := n]
            && (s in now.pages <==> s in e.pages || (s.root == root && s.vpn < n))
            && (s in e.pages ==> now.pages[s] == e.pages[s])
            && (s in now.pages && s !in e.pages ==> Blank(now.pages[s]))
    ensures root in e.size ==>
              var now := EagerNext(e, Shrink(root, n));
              && now.size == e.size[root := n]
              && (s in now.pages <==> s in e.pages && !(s.root == root && n <= s.vpn < e.size[root]))
              && (s in now.pages ==> now.pages[s] == e.pages[s])
  {
  }

  /** munmap, page by page: the range goes, or where it is heap is blank again. */
  lemma MunmapPage(e: Eager, root: nat, lo: nat, hi: nat, s: Slot)
    ensures var now := EagerNext(e, Munmap(root, lo, hi));
            var cut := s.root == root && lo <= s.vpn < hi;
            && now.size == e.size
            && (s in now.pages <==> s in e.pages && (cut ==> root in e.size && s.vpn < e.size[root]))
            && (s in now.pages ==> if cut then Blank(now.pages[s]) else now.pages[s] == e.pages[s])
  {
  }

  /** Stores and faults, page by page: a store changes the bytes of its page, a fault nothing but in a mapped file. */
  lemma TouchPage(e: Eager, t: Slot, bytes: Bytes, write: bool, p: nat, pte: Pte, s: Slot)
    ensures EagerNext(e, Fault(t, write, p)) == e
    ensures var now := EagerNext(e, Store(t, bytes));
            && now.size == e.size && (s in now.pages <==> s in e.pages)
            && (s in e.pages ==> now.pages[s] == if s == t then e.pages[s].(bytes := bytes) else e.pages[s])
    ensures var now := EagerNext(e, FileFault(t, pte, bytes));
            && now.size == e.size && (s in now.pages <==> s in e.pages || s == t)
            && (s in now.pages ==>
                  now.pages[s] == if s == t then Page(bytes, pte.w, pte.r, pte.x, pte.u) else e.pages[s])
  {
  }

  // ----- what the compound steps do to the page map

  lemma {:induction false} ShareUpToAt(m: Mem, from: nat, to: nat, k: nat)
    requires from != to && forall s :: s in m.flat ==> s.root != to
    ensures var m' := ShareUpTo(m, from, to, k);
            && m'.data == m.data && m'.size == m.size
            && (forall s :: s in m'.flat <==> s in m.flat || (s.root == to && s.vpn < k && Slot(from, s.vpn) in m.flat))
            && (forall s :: s in m.flat ==>
                  m'.flat[s] == if s.root == from && s.vpn < k then Shared(m.flat[s]) else m.flat[s])
            && (forall s :: s in m'.flat && s.root == to ==> m'.flat[s] == Shared(m.flat[Slot(from, s.vpn)]))
  {
    if k > 0 {
      ShareUpToAt(m, from, to, k - 1);
      ShareOneAt(ShareUpTo(m, from, to, k - 1), from, to, k - 1);
      hide Share, Shared;
    }
  }

  lemma ShareOneAt(m: Mem, from: nat, to: nat, vpn: nat)
    requires from != to && Slot(to, vpn) !in m.flat
    ensures var m', s, t := Share(m, from, to, vpn), Slot(from, vpn), Slot(to, vpn);
            && m'.data == m.data && m'.size == m.size
            && (forall x :: x in m'.flat <==> x in m.flat || (x == t && s in m.flat))
            && (forall x :: x in m.flat ==> m'.flat[x] == if x == s then Shared(m.flat[x]) else m.flat[x])
            && (s in m.flat ==> m'.flat[t] == Shared(m.flat[s]))
  {
  }

  lemma {:induction false} UnmapRangeAt(m: Mem, root: nat, lo: nat, hi: nat)
    ensures var m' := UnmapRange(m, root, lo, hi);
            && m'.data == m.data && m'.size == m.size
            && (forall s :: s in m'.flat <==> s in m.flat && !(s.root == root && lo <= s.vpn < hi))
            && (forall s :: s in m'.flat ==> m'.flat[s] == m.flat[s])
    decreases hi
  {
    if lo < hi { UnmapRangeAt(m, root, lo, hi - 1); }
  }

  // ----- simulation, event by event

  lemma ResizeInv(m: Mem, kern: map<nat, nat>, size: map<nat, nat>)
    requires Inv(m, kern)
    ensures Inv(m.(size := size), kern)
  {
    forall s | s in m.flat ensures SlotOk(m.(size := size), s) { assert SlotOk(m, s); }
  }

  lemma ForkInv(m: Mem, kern: map<nat, nat>, from: nat, to: nat)
    requires Inv(m, kern) && Enabled(m, Fork(from, to))
    ensures Inv(Next(m, Fork(from, to)), kern)
  {
    ShareUpToInv(m, kern, from, to, m.size[from]);
    ResizeInv(ShareUpTo(m, from, to, m.size[from]), kern, m.size[to := m.size[from]]);
  }

  /** After fork the child sees what the parent sees, and the parent sees what it saw. */
  lemma ForkView(m: Mem, from: nat, to: nat, s: Slot)
    requires Enabled(m, Fork(from, to))
    ensures var m' := Next(m, Fork(from, to));
            var was := if s.root == to then Slot(from, s.vpn) else s;
            && (Visible(m', s) <==> Visible(m, was) && (s.root == to ==> s.vpn < m.size[from]))
            && (Visible(m', s) ==> View(m', s) == View(m, was))
  {
    ShareUpToAt(m, from, to, m.size[from]);
  }

  lemma ForkAbs(m: Mem, from: nat, to: nat)
    requires Enabled(m, Fork(from, to))
    ensures Abs(Next(m, Fork(from, to))) == EagerNext(Abs(m), Fork(from, to))
  {
    var m' := Next(m, Fork(from, to));
    var e := EagerNext(Abs(m), Fork(from, to));
    assert m'.size == e.size by { ShareUpToAt(m, from, to, m.size[from]); }
    forall s ensures s in e.pages <==> Visible(m', s) {
      ForkView(m, from, to, s);
    }
    hide Next;
    forall s | Visible(m', s) ensures e.pages[s] == View(m', s) {
      ForkView(m, from, to, s);
    }
    AbsEqual(m', e);
  }

  lemma ForkFailsInv(m: Mem, kern: map<nat, nat>, from: nat, to: nat, k: nat)
    requires Inv(m, kern) && Enabled(m, ForkFails(from, to, k))
    ensures Inv(Next(m, ForkFails(from, to, k)), kern)
  {
    ShareUpToInv(m, kern, from, to, k);
    var mid := ShareUpTo(m, from, to, k);
    MarkInv(mid, kern, Slot(from, k));
    UnmapRangeInv(Mark(mid, Slot(from, k)), kern, to, 0, k);
  }

  lemma MarkInv(m: Mem, kern: map<nat, nat>, s: Slot)
    requires Inv(m, kern)
    ensures Inv(Mark(m, s), kern)
  {
    if s in m.flat {
      ConservedFlags(m.flat, m.count, kern, s, Shared(m.flat[s]));
      forall x | x in m.flat ensures SlotOk(Mark(m, s), x) { assert SlotOk(m, x); }
    }
  }

  lemma ForkFailsView(m: Mem, from: nat, to: nat, k: nat, s: Slot)
    requires Enabled(m, ForkFails(from, to, k))
    ensures var m' := Next(m, ForkFails(from, to, k));
            m'.size == m.size && (Visible(m', s) <==> Visible(m, s)) && View(m', s) == View(m, s)
  {
    var a := ShareUpTo(m, from, to, k);
    var b := Mark(a, Slot(from, k));
    ShareUpToAt(m, from, to, k);
    MarkView(a, Slot(from, k), s);
    UnmapRangeAt(b, to, 0, k);
    hide ShareUpTo, UnmapRange, Mark;
    if s.root == to { assert s !in m.flat; }
  }

  lemma MarkView(m: Mem, x: Slot, s: Slot)
    ensures Mark(m, x).size == m.size && Mark(m, x).flat.Keys == m.flat.Keys && View(Mark(m, x), s) == View(m, s)
  {
  }

  lemma ForkFailsAbs(m: Mem, from: nat, to: nat, k: nat)
    requires Enabled(m, ForkFails(from, to, k))
    ensures Abs(Next(m, ForkFails(from, to, k))) == Abs(m)
  {
    var m' := Next(m, ForkFails(from, to, k));
    hide Next;
    ForkFailsView(m, from, to, k, Slot(0, 0));
    forall s ensures Visible(m', s) <==> Visible(m, s) { ForkFailsView(m, from, to, k, s); }
    forall s | Visible(m, s) ensures View(m', s) == View(m, s) { ForkFailsView(m, from, to, k, s); }
    AbsEqual(m', Abs(m));
  }

  lemma FaultAbs(m: Mem, kern: map<nat, nat>, s: Slot, write: bool, p: nat)
    requires Inv(m, kern) && Enabled(m, Fault(s, write, p))
    ensures Abs(Next(m, Fault(s, write, p))) == Abs(m)
  {
    var m' := Next(m, Fault(s, write, p));
    forall t | Visible(m, t) ensures View(m', t) == View(m, t) {
      if t in m.flat { assert SlotOk(m, t); }
    }
    AbsEqual(m', Abs(m));
  }

  lemma FileFaultAbs(m: Mem, kern: map<nat, nat>, s: Slot, pte: Pte, bytes: Bytes)
    requires Inv(m, kern) && Enabled(m, FileFault(s, pte, bytes))
    ensures Abs(Next(m, FileFault(s, pte, bytes))) == EagerNext(Abs(m), FileFault(s, pte, bytes))
  {
    var m' := Next(m, FileFault(s, pte, bytes));
    var e := EagerNext(Abs(m), FileFault(s, pte, bytes));
    forall t | Visible(m', t) ensures e.pages[t] == View(m', t) {
      if t in m.flat { assert SlotOk(m, t); }
    }
    AbsEqual(m', e);
  }

  lemma StoreInv(m: Mem, kern: map<nat, nat>, s: Slot, bytes: Bytes)
    requires Inv(m, kern) && Enabled(m, Store(s, bytes))
    ensures Inv(Next(m, Store(s, bytes)), kern)
  {
    var m' := Next(m, Store(s, bytes));
    forall t | t in m'.flat ensures SlotOk(m', t) { assert SlotOk(m, t); }
  }

  /** A store reaches the page of its own slot and no other. */
  lemma StoreAbs(m: Mem, kern: map<nat, nat>, s: Slot, bytes: Bytes)
    requires Inv(m, kern) && Enabled(m, Store(s, bytes))
    ensures Abs(Next(m, Store(s, bytes))) == EagerNext(Abs(m), Store(s, bytes))
  {
    var m' := Next(m, Store(s, bytes));
    var e := EagerNext(Abs(m), Store(s, bytes));
    assert SlotOk(m, s);
    forall t | Visible(m', t) ensures e.pages[t] == View(m', t) {
      if t in m.flat && t != s {
        assert SlotOk(m, t);
        SoleMapper(m.flat, m.count, kern, s, t);
      }
    }
    AbsEqual(m', e);
  }

  lemma ShrinkAbs(m: Mem, root: nat, n: nat)
    requires Enabled(m, Shrink(root, n))
    ensures Abs(Next(m, Shrink(root, n))) == EagerNext(Abs(m), Shrink(root, n))
  {
    UnmapRangeAt(m, root, n, m.size[root]);
    var m', e := Next(m, Shrink(root, n)), EagerNext(Abs(m), Shrink(root, n));
    hide UnmapRange;
    AbsEqual(m', e);
  }

  lemma MunmapAbs(m: Mem, root: nat, lo: nat, hi: nat)
    ensures Abs(Next(m, Munmap(root, lo, hi))) == EagerNext(Abs(m), Munmap(root, lo, hi))
  {
    UnmapRangeAt(m, root, lo, hi);
    var m', e := Next(m, Munmap(root, lo, hi)), EagerNext(Abs(m), Munmap(root, lo, hi));
    hide UnmapRange;
    AbsEqual(m', e);
  }

  lemma GrowAbs(m: Mem, root: nat, n: nat)
    requires Enabled(m, Grow(root, n))
    ensures Abs(Next(m, Grow(root, n))) == EagerNext(Abs(m), Grow(root, n))
  {
    AbsEqual(Next(m, Grow(root, n)), EagerNext(Abs(m), Grow(root, n)));
  }

  /** Every event keeps the invariant. */
  lemma InvNext(m: Mem, kern: map<nat, nat>, e: Event)
    requires Inv(m, kern) && Enabled(m, e)
    ensures Inv(Next(m, e), kern)
  {
    match e
    case Fork(from, to) => ForkInv(m, kern, from, to);
    case ForkFails(from, to, k) => ForkFailsInv(m, kern, from, to, k);
    case Fault(s, write, p) =>
      if s in m.flat { BreakCowInv(m, kern, s, p); }
      else { MapFreshInv(m, kern, s, LazyPte(p), ZeroPage()); }
    case FileFault(s, pte, bytes) => MapFreshInv(m, kern, s, pte, bytes);
    case Store(s, bytes) => StoreInv(m, kern, s, bytes);
    case Grow(root, n) => ResizeInv(m, kern, m.size[root := n]);
    case Shrink(root, n) =>
      UnmapRangeInv(m, kern, root, n, m.size[root]);
      ResizeInv(UnmapRange(m, root, n, m.size[root]), kern, m.size[root := n]);
    case Munmap(root, lo, hi) => UnmapRangeInv(m, kern, root, lo, hi);
  }

  /** Sharing and laziness are invisible: each event does to the programs' view what it does to eager memory. */
  lemma Simulates(m: Mem, kern: map<nat, nat>, e: Event)
    requires Inv(m, kern) && Enabled(m, e)
    ensures Abs(Next(m, e)) == EagerNext(Abs(m), e)
  {
    match e
    case Fork(from, to) => ForkAbs(m, from, to);
    case ForkFails(from, to, k) => ForkFailsAbs(m, from, to, k);
    case Fault(s, write, p) => FaultAbs(m, kern, s, write, p);
    case FileFault(s, pte, bytes) => FileFaultAbs(m, kern, s, pte, bytes);
    case Store(s, bytes) => StoreAbs(m, kern, s, bytes);
    case Grow(root, n) => GrowAbs(m, root, n);
    case Shrink(root, n) => ShrinkAbs(m, root, n);
    case Munmap(root, lo, hi) => MunmapAbs(m, root, lo, hi);
  }

  // ----- runs

  ghost predicate Run(m: Mem, es: seq<Event>)
    decreases |es|
  {
    es == [] || (Enabled(m, es[0]) && Run(Next(m, es[0]), es[1..]))
  }

  ghost function After(m: Mem, es: seq<Event>): (m': Mem)
    requires Run(m, es)
    decreases |es|
  {
    if es == [] then m else After(Next(m, es[0]), es[1..])
  }

  ghost function EagerAfter(e: Eager, es: seq<Event>): (e': Eager)
    decreases |es|
  {
    if es == [] then e else EagerAfter(EagerNext(e, es[0]), es[1..])
  }

  /** Over every run the copy-on-write machine shows exactly what eager copying would show. */
  lemma {:induction false} CowRefinesEager(m: Mem, kern: map<nat, nat>, es: seq<Event>)
    requires Inv(m, kern) && Run(m, es)
    ensures Inv(After(m, es), kern)
    ensures Abs(After(m, es)) == EagerAfter(Abs(m), es)
    decreases |es|
  {
    if es != [] {
      InvNext(m, kern, es[0]);
      Simulates(m, kern, es[0]);
      CowRefinesEager(Next(m, es[0]), kern, es[1..]);
    }
  }

  /** The event writes to, creates or resizes the address space. */
  predicate Touches(e: Event, root: nat) {
    match e
    case Fork(_, to) => to == root
    case FileFault(s, _, _) => s.root == root
    case Store(s, _) => s.root == root
    case Grow(r, _) => r == root
    case Shrink(r, _) => r == root
    case Munmap(r, _, _) => r == root
    case _ => false
  }

  ghost predicate SamePages(a: Eager, b: Eager, root: nat) {
    forall s: Slot :: s.root == root ==> (s in a.pages <==> s in b.pages) && (s in a.pages ==> a.pages[s] == b.pages[s])
  }

  lemma {:induction false} EagerIsolation(e: Eager, es: seq<Event>, root: nat)
    requires forall i :: 0 <= i < |es| ==> !Touches(es[i], root)
    ensures SamePages(e, EagerAfter(e, es), root)
    decreases |es|
  {
    if es != [] {
      assert !Touches(es[0], root);
      assert SamePages(e, EagerNext(e, es[0]), root);
      EagerIsolation(EagerNext(e, es[0]), es[1..], root);
    }
  }

  /** Whatever happens in other address spaces, shared pages or not, one that is not touched looks the same. */
  lemma Isolation(m: Mem, kern: map<nat, nat>, es: seq<Event>, root: nat)
    requires Inv(m, kern) && Run(m, es) && forall i :: 0 <= i < |es| ==> !Touches(es[i], root)
    ensures SamePages(Abs(m), Abs(After(m, es)), root)
  {
    CowRefinesEager(m, kern, es);
    EagerIsolation(Abs(m), es, root);
  }
}
