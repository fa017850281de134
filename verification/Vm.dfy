/**
 User memory in xv6-riscv/kernel/vm.c: uvmalloc, uvmunmap, uvmcopy, vmfault, copyout and
 copyin over the page tables and the page allocator, against the flat model of module Cow.

 Virtual addresses are split into page number and offset. `data` holds the bytes of the
 pages that are in use as user memory, `held` the references the kernel keeps besides the
 page tables themselves.
 */
module Vm {
  import opened Cow
  import opened Kalloc
  import opened PageTable
  import Counting

  const UTOP: nat := MAX_VPN - 66   // TRAPFRAME(NPROC): user memory ends here

  /** The entries that own a reference to the page they map. */
  ghost function Owned(flat: map<Slot, Pte>): (r: map<Slot, Pte>) {
    map s | s in flat && s.vpn < UTOP :: flat[s]
  }

  /** All kernel references: `held` and one per page-table page. */
  ghost function KernOf(held: map<nat, nat>, tables: Tables): (k: map<nat, nat>)
    ensures forall p :: Get(k, p) == Get(held, p) + if p in tables then 1 else 0
  {
    map p | p in held.Keys + tables.Keys :: Get(held, p) + if p in tables then 1 else 0
  }

  /** The same pages with the same bytes in the same places. */
  ghost predicate SameView(a: Mem, b: Mem) {
    a.flat == b.flat && a.data == b.data && a.size == b.size
  }

  lemma SameAbs(a: Mem, b: Mem)
    requires SameView(a, b)
    ensures Abs(a) == Abs(b)
  {
    assert forall s :: View(a, s) == View(b, s);
    AbsEqual(a, Abs(b));
  }

  /** Page tables are mapped by no user entry. */
  lemma TableUnmapped(m: Mem, held: map<nat, nat>, tables: Tables, s: Slot)
    requires Inv(m, KernOf(held, tables)) && TablesCounted(tables, m.count) && s in m.flat
    ensures m.flat[s].ppn !in tables
  {
    var p := m.flat[s].ppn;
    assert s in Mappers(m.flat, p);
    assert Get(m.count, p) == |Mappers(m.flat, p)| + Get(KernOf(held, tables), p);
  }

  /** A page the kernel holds in its hands is no page table either. */
  lemma TableUnheld(m: Mem, held: map<nat, nat>, tables: Tables, p: nat)
    requires Inv(m, KernOf(held, tables)) && TablesCounted(tables, m.count) && Get(held, p) > 0
    ensures p !in tables && p in m.count
  {
    assert Get(m.count, p) == |Mappers(m.flat, p)| + Get(KernOf(held, tables), p);
  }

  /** New page-table pages keep everything conserved. */
  lemma GrewInv(m: Mem, held: map<nat, nat>, was: Tables, now: Tables, count: map<nat, nat>)
    requires Inv(m, KernOf(held, was)) && Grew(was, now, m.count, count)
    ensures Inv(m.(count := count), KernOf(held, now))
  {
    hide KernOf;
    var m' := m.(count := count);
    assert Conserved(m'.flat, m'.count, KernOf(held, now)) by {
      forall p ensures Get(count, p) == |Mappers(m.flat, p)| + Get(KernOf(held, now), p) {
        assert Get(m.count, p) == |Mappers(m.flat, p)| + Get(KernOf(held, was), p);
      }
    }
    hide Conserved;
    forall s | s in m'.flat ensures SlotOk(m', s) { assert SlotOk(m, s); }
  }

  /** A page held by the kernel becomes the page of a new entry. */
  lemma GiveInv(m: Mem, kern: map<nat, nat>, kern': map<nat, nat>, s: Slot, pte: Pte)
    requires Inv(m, kern) && s !in m.flat && pte.v && !pte.cow && pte.ppn in m.data
    requires Get(kern, pte.ppn) == Get(kern', pte.ppn) + 1 && (pte.w ==> Get(m.count, pte.ppn) == 1)
    requires forall p :: p != pte.ppn ==> Get(kern', p) == Get(kern, p)
    ensures Inv(m.(flat := m.flat[s := pte]), kern')
  {
    var m' := m.(flat := m.flat[s := pte]);
    forall p ensures Get(m.count, p) == |Mappers(m'.flat, p)| + Get(kern', p) {
      assert Get(m.count, p) == |Mappers(m.flat, p)| + Get(kern, p);
      MappersSet(m.flat, s, pte, p);
      assert s !in Mappers(m.flat, p);
    }
    assert Get(m.count, pte.ppn) == |Mappers(m'.flat, pte.ppn)| + Get(kern', pte.ppn);
    assert s in Mappers(m'.flat, pte.ppn);
    forall x | x in m'.flat ensures SlotOk(m', x) { if x != s { assert SlotOk(m, x); } }
  }

  /** kalloc: one more page held by the kernel. */
  lemma TakeInv(m: Mem, kern: map<nat, nat>, kern': map<nat, nat>, p: nat, bytes: Bytes)
    requires Inv(m, kern) && p !in m.count
    requires Get(kern', p) == 1 && forall q :: q != p ==> Get(kern', q) == Get(kern, q)
    ensures Inv(m.(count := m.count[p := 1], data := m.data[p := bytes]), kern')
  {
    var m' := m.(count := m.count[p := 1], data := m.data[p := bytes]);
    forall q ensures Get(m'.count, q) == |Mappers(m'.flat, q)| + Get(kern', q) {
      assert Get(m.count, q) == |Mappers(m.flat, q)| + Get(kern, q);
    }
    forall x | x in m'.flat ensures SlotOk(m', x) { assert SlotOk(m, x); }
  }

  /** kfree of a page held by the kernel. */
  lemma DropInv(m: Mem, kern: map<nat, nat>, kern': map<nat, nat>, p: nat)
    requires Inv(m, kern) && Get(kern, p) == Get(kern', p) + 1
    requires forall q :: q != p ==> Get(kern', q) == Get(kern, q)
    ensures p in m.count && Inv(m.(count := Dec(m.count, p)), kern')
  {
    var m' := m.(count := Dec(m.count, p));
    assert Get(m.count, p) == |Mappers(m.flat, p)| + Get(kern, p);
    forall q ensures Get(m'.count, q) == |Mappers(m'.flat, q)| + Get(kern', q) {
      assert Get(m.count, q) == |Mappers(m.flat, q)| + Get(kern, q);
    }
    forall x | x in m'.flat ensures SlotOk(m', x) {
      assert SlotOk(m, x);
      assert x in Mappers(m'.flat, m'.flat[x].ppn);
      assert Get(m'.count, m'.flat[x].ppn) == |Mappers(m'.flat, m'.flat[x].ppn)| + Get(kern', m'.flat[x].ppn);
    }
  }

  // ----- the invariant of user memory, on values

  ghost predicate UserOk(flat: map<Slot, Pte>, count: map<nat, nat>, data: map<nat, Bytes>, size: map<nat, nat>,
                         held: map<nat, nat>, tables: Tables, sh: Shape) {
    && Inv(Mem(Owned(flat), count, data, size), KernOf(held, tables))
    && TablesCounted(tables, count)
    && (forall p :: p in held ==> held[p] > 0)
    && (forall p :: p in data ==> |data[p]| == 4096)
    && (forall root :: root in size ==> IsRoot(tables, sh, root) && size[root] <= UTOP)
    && KernelPages(flat)
  }

  /** Trapframes and trampoline are mapped without PTE_U, and never copy-on-write. */
  ghost predicate KernelPages(flat: map<Slot, Pte>) {
    forall s :: s in flat && s.vpn >= UTOP ==> !flat[s].u && !flat[s].cow
  }

  lemma OwnedSet(flat: map<Slot, Pte>, s: Slot, pte: Pte)
    requires s.vpn < UTOP
    ensures Owned(flat[s := pte]) == Owned(flat)[s := pte]
    ensures Owned(flat - {s}) == Owned(flat) - {s}
    ensures s in Owned(flat) <==> s in flat
    ensures s in flat ==> Owned(flat)[s] == flat[s]
  {
  }

  lemma OwnedAt(flat: map<Slot, Pte>, s: Slot)
    ensures s in Owned(flat) <==> s in flat && s.vpn < UTOP
    ensures s in Owned(flat) ==> Owned(flat)[s] == flat[s]
  {
  }

  lemma KernelPage(flat: map<Slot, Pte>, count: map<nat, nat>, data: map<nat, Bytes>, size: map<nat, nat>,
                   held: map<nat, nat>, tables: Tables, sh: Shape, s: Slot)
    requires UserOk(flat, count, data, size, held, tables, sh)
    ensures s in flat && s.vpn >= UTOP ==> !flat[s].u && !flat[s].cow
  {
  }

  lemma OwnedPart(flat: map<Slot, Pte>)
    ensures forall s :: s in Owned(flat) <==> s in flat && s.vpn < UTOP
  {
  }

  lemma WritableAlone(flat: map<Slot, Pte>, count: map<nat, nat>, data: map<nat, Bytes>, size: map<nat, nat>,
                      held: map<nat, nat>, tables: Tables, sh: Shape, s: Slot)
    requires UserOk(flat, count, data, size, held, tables, sh) && s in flat && s.vpn < UTOP && flat[s].w
    ensures !flat[s].cow
  {
    assert SlotOk(Mem(Owned(flat), count, data, size), s);
  }

  lemma Uncounted(m: Mem, kern: map<nat, nat>, p: nat)
    requires Inv(m, kern) && p !in m.count
    ensures Get(kern, p) == 0
  {
    assert Get(m.count, p) == |Mappers(m.flat, p)| + Get(kern, p);
  }

  lemma SlotFine(m: Mem, kern: map<nat, nat>, s: Slot)
    requires Inv(m, kern) && s in m.flat
    ensures SlotOk(m, s) && m.count[m.flat[s].ppn] > 0
  {
  }

  lemma OneLessHeld(held: map<nat, nat>, tables: Tables, p: nat)
    requires Get(held, p) > 0
    ensures Get(KernOf(held, tables), p) == Get(KernOf(Dec(held, p), tables), p) + 1
    ensures forall q :: q != p ==> Get(KernOf(Dec(held, p), tables), q) == Get(KernOf(held, tables), q)
  {
  }

  lemma TakeOk(flat: map<Slot, Pte>, count: map<nat, nat>, data: map<nat, Bytes>, size: map<nat, nat>,
               held: map<nat, nat>, tables: Tables, sh: Shape, p: nat, bytes: Bytes)
    requires UserOk(flat, count, data, size, held, tables, sh) && p !in count && |bytes| == 4096
    ensures UserOk(flat, count[p := 1], data[p := bytes], size, held[p := 1], tables, sh)
  {
    hide Inv, KernOf, Owned;
    var m, kern := Mem(Owned(flat), count, data, size), KernOf(held, tables);
    Uncounted(m, kern, p);
    TakeInv(m, kern, KernOf(held[p := 1], tables), p, bytes);
  }

  lemma DropOk(flat: map<Slot, Pte>, count: map<nat, nat>, data: map<nat, Bytes>, size: map<nat, nat>,
               held: map<nat, nat>, tables: Tables, sh: Shape, p: nat)
    requires UserOk(flat, count, data, size, held, tables, sh) && Get(held, p) > 0
    ensures p in count && UserOk(flat, Dec(count, p), data, size, Dec(held, p), tables, sh)
  {
    hide Inv, KernOf, Owned;
    var m := Mem(Owned(flat), count, data, size);
    TableUnheld(m, held, tables, p);
    OneLessHeld(held, tables, p);
    DropInv(m, KernOf(held, tables), KernOf(Dec(held, p), tables), p);
  }

  lemma GrewOk(flat: map<Slot, Pte>, count: map<nat, nat>, data: map<nat, Bytes>, size: map<nat, nat>,
               held: map<nat, nat>, tables: Tables, sh: Shape, tables': Tables, sh': Shape, count': map<nat, nat>)
    requires UserOk(flat, count, data, size, held, tables, sh) && Grew(tables, tables', count, count')
    requires RootsKept(tables, sh, tables', sh')
    ensures UserOk(flat, count', data, size, held, tables', sh')
  {
    GrewInv(Mem(Owned(flat), count, data, size), held, tables, tables', count');
  }

  lemma GiveOk(flat: map<Slot, Pte>, count: map<nat, nat>, data: map<nat, Bytes>, size: map<nat, nat>,
               held: map<nat, nat>, tables: Tables, sh: Shape, s: Slot, pte: Pte)
    requires UserOk(flat, count, data, size, held, tables, sh) && s !in flat && s.vpn < UTOP
    requires pte.v && !pte.cow && Get(held, pte.ppn) > 0 && pte.ppn in data && Get(count, pte.ppn) == 1
    ensures UserOk(flat[s := pte], count, data, size, Dec(held, pte.ppn), tables, sh)
  {
    OwnedSet(flat, s, pte);
    OneLessHeld(held, tables, pte.ppn);
    GiveInv(Mem(Owned(flat), count, data, size), KernOf(held, tables), KernOf(Dec(held, pte.ppn), tables), s, pte);
  }

  lemma UnmapOk(flat: map<Slot, Pte>, count: map<nat, nat>, data: map<nat, Bytes>, size: map<nat, nat>,
                held: map<nat, nat>, tables: Tables, sh: Shape, s: Slot)
    requires UserOk(flat, count, data, size, held, tables, sh) && s in flat && s.vpn < UTOP
    ensures flat[s].ppn in count && flat[s].ppn !in tables
    ensures UserOk(flat - {s}, Dec(count, flat[s].ppn), data, size, held, tables, sh)
    ensures Unmap(Mem(Owned(flat), count, data, size), s) == Mem(Owned(flat - {s}), Dec(count, flat[s].ppn), data, size)
  {
    var m := Mem(Owned(flat), count, data, size);
    OwnedSet(flat, s, NullPte());
    assert SlotOk(m, s);
    TableUnmapped(m, held, tables, s);
    UnmapInv(m, KernOf(held, tables), s);
  }

  lemma SameTables(flat: map<Slot, Pte>, count: map<nat, nat>, data: map<nat, Bytes>, size: map<nat, nat>,
                   held: map<nat, nat>, tables: Tables, sh: Shape, tables': Tables)
    requires UserOk(flat, count, data, size, held, tables, sh) && tables.Keys == tables'.Keys
    ensures UserOk(flat, count, data, size, held, tables', sh)
  {
    assert KernOf(held, tables) == KernOf(held, tables');
  }

  lemma FlagsOk(flat: map<Slot, Pte>, count: map<nat, nat>, data: map<nat, Bytes>, size: map<nat, nat>,
                held: map<nat, nat>, tables: Tables, sh: Shape, s: Slot)
    requires UserOk(flat, count, data, size, held, tables, sh) && s in flat && s.vpn < UTOP
    ensures Shared(flat[s]).v && UserOk(flat[s := Shared(flat[s])], count, data, size, held, tables, sh)
    ensures Mark(Mem(Owned(flat), count, data, size), s) == Mem(Owned(flat[s := Shared(flat[s])]), count, data, size)
  {
    var m := Mem(Owned(flat), count, data, size);
    OwnedSet(flat, s, Shared(flat[s]));
    assert SlotOk(m, s);
    MarkInv(m, KernOf(held, tables), s);
  }

  /** krefinc after the entry of the child has been written. */
  lemma ShareOk(flat: map<Slot, Pte>, count: map<nat, nat>, data: map<nat, Bytes>, size: map<nat, nat>,
                held: map<nat, nat>, tables: Tables, sh: Shape, from: nat, to: nat, vpn: nat)
    requires UserOk(flat, count, data, size, held, tables, sh) && vpn < UTOP && from != to
    requires Slot(from, vpn) in flat && !flat[Slot(from, vpn)].w && Slot(to, vpn) !in flat
    ensures var pte := flat[Slot(from, vpn)];
            && pte.ppn in count && pte.ppn !in tables
            && UserOk(flat[Slot(to, vpn) := pte], Inc(count, pte.ppn), data, size, held, tables, sh)
  {
    var m := Mem(Owned(flat), count, data, size);
    var s, t := Slot(from, vpn), Slot(to, vpn);
    var pte := flat[s];
    OwnedSet(flat, s, pte);
    OwnedSet(flat, t, pte);
    assert SlotOk(m, s);
    TableUnmapped(m, held, tables, s);
    assert m.flat[s := pte] == m.flat;
    ShareInv(m, KernOf(held, tables), from, to, vpn);
    assert Share(m, from, to, vpn) == Mem(Owned(flat[t := pte]), Inc(count, pte.ppn), data, size);
  }

  lemma BreakOk(flat: map<Slot, Pte>, count: map<nat, nat>, data: map<nat, Bytes>, size: map<nat, nat>,
                held: map<nat, nat>, tables: Tables, sh: Shape, s: Slot, p: nat)
    requires UserOk(flat, count, data, size, held, tables, sh) && s in flat && s.vpn < UTOP && p !in count
    ensures var m, pte := Mem(Owned(flat), count, data, size), flat[s];
            && pte.v && s in m.flat
            && pte.ppn in count && pte.ppn !in tables && pte.ppn in data && |data[pte.ppn]| == 4096
            && BreakCow(m, s, p) ==
               (if count[pte.ppn] == 1 then Mem(Owned(flat[s := Unshared(pte)]), count, data, size)
                else Mem(Owned(flat[s := Unshared(pte).(ppn := p)]), Dec(count[p := 1], pte.ppn),
                         data[p := data[pte.ppn]], size))
            && (count[pte.ppn] == 1 ==> UserOk(flat[s := Unshared(pte)], count, data, size, held, tables, sh))
            && (count[pte.ppn] != 1 ==> UserOk(flat[s := Unshared(pte).(ppn := p)], Dec(count[p := 1], pte.ppn),
                                               data[p := data[pte.ppn]], size, held, tables, sh))
  {
    hide Inv, KernOf, Owned;
    var m, pte := Mem(Owned(flat), count, data, size), flat[s];
    OwnedSet(flat, s, Unshared(pte));
    OwnedSet(flat, s, Unshared(pte).(ppn := p));
    SlotFine(m, KernOf(held, tables), s);
    TableUnmapped(m, held, tables, s);
    BreakCowInv(m, KernOf(held, tables), s, p);
  }

  /** Memory whose mapped pages have not changed looks the same. */
  lemma AbsFrame(a: Mem, b: Mem)
    requires a.flat == b.flat && a.size == b.size
    requires forall s :: s in a.flat ==> && a.flat[s].ppn in a.data && a.flat[s].ppn in b.data
                                         && a.data[a.flat[s].ppn] == b.data[a.flat[s].ppn]
    ensures Abs(a) == Abs(b)
  {
    assert forall s :: View(a, s) == View(b, s);
    AbsEqual(a, Abs(b));
  }

  lemma HeldCounted(flat: map<Slot, Pte>, count: map<nat, nat>, data: map<nat, Bytes>, size: map<nat, nat>,
                    held: map<nat, nat>, tables: Tables, sh: Shape)
    requires UserOk(flat, count, data, size, held, tables, sh)
    ensures forall p :: p !in count ==> p !in held
  {
    forall p | p !in count ensures p !in held {
      assert Get(count, p) == |Mappers(Owned(flat), p)| + Get(KernOf(held, tables), p);
    }
  }

  /** Writing a page nobody references changes nothing anyone sees. */
  lemma AbsNewPage(flat: map<Slot, Pte>, count: map<nat, nat>, data: map<nat, Bytes>, size: map<nat, nat>,
                   held: map<nat, nat>, tables: Tables, sh: Shape, bytes: Bytes)
    requires UserOk(flat, count, data, size, held, tables, sh)
    ensures forall p: nat :: p !in count ==>
              Abs(Mem(Owned(flat), count, data[p := bytes], size)) == Abs(Mem(Owned(flat), count, data, size))
  {
    var m := Mem(Owned(flat), count, data, size);
    forall p: nat | p !in count ensures Abs(m.(data := data[p := bytes])) == Abs(m) {
      forall s | s in m.flat ensures m.flat[s].ppn in data && m.flat[s].ppn != p { assert SlotOk(m, s); }
      AbsFrame(m.(data := data[p := bytes]), m);
    }
  }

  /** The mapped file page at a faulting address: its permissions, its bytes, and whether they could be read. */
  datatype FilePage = NoFile(bytes: Bytes) | File(r: bool, w: bool, x: bool, bytes: Bytes, readOk: bool)

  function FilePte(file: FilePage, p: nat): (pte: Pte) {
    if file.NoFile? then NullPte() else Pte(true, p, file.r, file.w, file.x, true, false)
  }

  function LazyPte0(): (pte: Pte) {
    Pte(true, 0, true, true, false, true, false)
  }

  /** The faults that are errors of the program. */
  ghost predicate Refused(m: Mem, s: Slot, read: bool, file: FilePage) {
    if s in m.flat then read || !m.flat[s].cow
    else !InHeap(m.size, s) && (file.NoFile? || (if read then !file.r && !file.x else !file.w) || !file.readOk)
  }

  /** A page the kernel may not read, or not write, on the program's behalf. */
  ghost predicate NoAccess(m: Mem, s: Slot, read: bool, file: FilePage) {
    s.vpn >= UTOP || (Refused(m, s, read, file) && (s in m.flat ==> !m.flat[s].u || (!read && !m.flat[s].w)))
  }

  /**
   Of a page the program sees, a fault is refused exactly if the program has no right to the access: it happens because
   the entry lacks the right, and a lazy or copy-on-write page only lacks it for now.
   */
  lemma RefusedRightly(m: Mem, kern: map<nat, nat>, s: Slot, read: bool, file: FilePage)
    requires Inv(m, kern) && Visible(m, s) && (s in m.flat ==> if read then !m.flat[s].r else !m.flat[s].w)
    ensures s in Abs(m).pages
    ensures Refused(m, s, read, file) <==> if read then !Abs(m).pages[s].r else !Abs(m).pages[s].w
  {
    if s in m.flat { assert SlotOk(m, s); }
  }

  // ----- how much memory an access takes

  /**
   How many free pages it takes to open a page to an access: none if it is there, but one for the copy if it is written
   and copy-on-write with other references; and if it is not there one, and one for each table it lacks.
   */
  ghost function Pages(m: Mem, tables: Tables, s: Slot, read: bool): (n: nat) {
    if s in m.flat then (if Splits(m, s, read) && Get(m.count, m.flat[s].ppn) != 1 then 1 else 0)
    else 1 + Need(tables, s.root, s.vpn)
  }

  /** The access is a store to a copy-on-write page. */
  ghost predicate Splits(m: Mem, s: Slot, read: bool) {
    !read && s in m.flat && m.flat[s].cow
  }

  /** The page `s` has been opened: what that took, which tables it made, and which reference it dropped. */
  ghost predicate Took(m: Mem, tables: Tables, free: nat, m': Mem, tables': Tables, free': nat, s: Slot, read: bool) {
    && free == free' + Pages(m, tables, s, read)
    && (if s in m.flat then MadeAll(tables, tables', s.root, {}) else MadeFrom(tables, tables', s.root, s.vpn, 0))
    && forall p :: p in m.count ==>
         Get(m'.count, p) ==
         Get(m.count, p) - if Splits(m, s, read) && m.flat[s].ppn == p && m.count[p] > 1 then 1 else 0
  }

  lemma BreakTook(m: Mem, tables: Tables, free: nat, tables': Tables, free': nat, s: Slot, p: nat)
    requires s in m.flat && m.flat[s].cow && Fresh(m, p) && MadeAll(tables, tables', s.root, {})
    requires free == free' + if Get(m.count, m.flat[s].ppn) == 1 then 0 else 1
    requires m.flat[s].ppn in m.count && m.count[m.flat[s].ppn] > 0
    ensures Took(m, tables, free, BreakCow(m, s, p), tables', free', s, false)
  {
    hide MadeAll;
  }

  lemma StayTook(m: Mem, tables: Tables, free: nat, m': Mem, s: Slot, read: bool)
    requires s in m.flat && (!read ==> m.flat[s].w && !m.flat[s].cow) && m'.count == m.count
    ensures Took(m, tables, free, m', tables, free, s, read) && Pages(m, tables, s, read) == 0
  {
    MadeAllNone(tables, s.root);
    hide MadeAll;
  }

  lemma NewTook(m: Mem, tables: Tables, free: nat, m': Mem, tables': Tables, free': nat, s: Slot)
    requires s !in m.flat && free == free' + 1 + Need(tables, s.root, s.vpn)
    requires MadeFrom(tables, tables', s.root, s.vpn, 0)
    requires forall p :: p in m.count ==> p in m'.count && m'.count[p] == m.count[p]
    ensures forall read :: Took(m, tables, free, m', tables', free', s, read)
  {
    hide MadeFrom, Need;
  }

  /** A change of bytes takes nothing more. */
  lemma TookSame(m: Mem, tables: Tables, free: nat, a: Mem, b: Mem, tables': Tables, free': nat, s: Slot, read: bool)
    requires Took(m, tables, free, a, tables', free', s, read) && b.count == a.count
    ensures Took(m, tables, free, b, tables', free', s, read)
  {
    hide MadeFrom, MadeAll, Pages;
  }

  /** The pages of [lo, hi) that are mapped, or with `there` false those that are not. */
  ghost function Those(flat: map<Slot, Pte>, root: nat, lo: nat, hi: nat, there: bool): (pages: set<nat>) {
    set v | v in Between(lo, hi) && (Slot(root, v) in flat) == there
  }

  lemma ThoseNext(flat: map<Slot, Pte>, root: nat, lo: nat, a: nat, there: bool)
    requires lo <= a
    ensures Those(flat, root, lo, lo, there) == {}
    ensures Those(flat, root, lo, a + 1, there) ==
              Those(flat, root, lo, a, there) + if (Slot(root, a) in flat) == there then {a} else {}
  {
    BetweenNext(lo, a);
  }

  lemma ThoseGrow(flat: map<Slot, Pte>, root: nat, lo: nat, a: nat, b: nat, there: bool)
    requires a <= b
    ensures Those(flat, root, lo, a, there) <= Those(flat, root, lo, b, there)
  {
  }

  /** uvmcopy has made the tables of the child for the pages below `i` that the parent has mapped. */
  ghost predicate Copying(tables: Tables, flat: map<Slot, Pte>, from: nat, to: nat, i: nat, free: nat, now: Tables,
                          left: nat) {
    && MadeAll(tables, now, to, Those(flat, from, 0, i, true))
    && left + |Missing(tables, to, Those(flat, from, 0, i, true))| == free
  }

  lemma CopyingNone(tables: Tables, flat: map<Slot, Pte>, from: nat, to: nat, free: nat)
    ensures Copying(tables, flat, from, to, 0, free, tables, free)
  {
    ThoseNext(flat, from, 0, 0, true);
    MadeAllNone(tables, to);
    hide MadeAll, Missing, Those;
  }

  lemma CopyingNext(tables: Tables, flat: map<Slot, Pte>, from: nat, to: nat, i: nat, n: nat, free: nat, now: Tables,
                    left: nat)
    requires Copying(tables, flat, from, to, i, free, now, left) && i < n <= UTOP
    ensures Slot(from, i) in flat && left < Need(now, to, i) ==>
              free < |Missing(tables, to, Those(flat, from, 0, n, true))|
  {
    hide MadeAll, Missing, Those, Need;
    ThoseNext(flat, from, 0, i, true);
    MissingMore(tables, now, to, Those(flat, from, 0, i, true), i);
    ThoseGrow(flat, from, 0, i + 1, n, true);
    MissingGrows(tables, to, Those(flat, from, 0, i + 1, true), Those(flat, from, 0, n, true));
  }

  lemma CopyingMore(tables: Tables, flat: map<Slot, Pte>, from: nat, to: nat, i: nat, free: nat, was: Tables,
                    left: nat, now: Tables, left': nat)
    requires Copying(tables, flat, from, to, i, free, was, left) && i < UTOP
    requires Slot(from, i) !in flat ==> now == was && left' == left
    requires Slot(from, i) in flat ==> left == left' + Need(was, to, i) && MadeFrom(was, now, to, i, 0)
    ensures Copying(tables, flat, from, to, i + 1, free, now, left')
  {
    hide MadeAll, Missing, Those, Need, MadeFrom;
    ThoseNext(flat, from, 0, i, true);
    MissingMore(tables, was, to, Those(flat, from, 0, i, true), i);
    if Slot(from, i) in flat {
      MadeAllNext(tables, was, now, to, Those(flat, from, 0, i, true), i);
    } else {
      assert Those(flat, from, 0, i, true) + {} == Those(flat, from, 0, i, true);
    }
  }

  lemma CopyingAll(tables: Tables, flat: map<Slot, Pte>, from: nat, to: nat, n: nat, free: nat, now: Tables, left: nat)
    requires Copying(tables, flat, from, to, n, free, now, left)
    ensures |Missing(tables, to, Those(flat, from, 0, n, true))| <= free
  {
    hide MadeAll, Missing, Those;
  }

  /** How many of the copy-on-write pages of [lo, v) are page `p`. */
  ghost function Before(m: Mem, root: nat, lo: nat, v: nat, p: nat): (n: nat) {
    if v <= lo then 0
    else Before(m, root, lo, v - 1, p)
         + if Splits(m, Slot(root, v - 1), false) && m.flat[Slot(root, v - 1)].ppn == p then 1 else 0
  }

  /** A store to the pages from `lo` on copies page `v`: once those before it are done it has other references. */
  ghost predicate Copies(m: Mem, root: nat, lo: nat, v: nat) {
    && Splits(m, Slot(root, v), false)
    && var p := m.flat[Slot(root, v)].ppn; Get(m.count, p) != 1 + Before(m, root, lo, v, p)
  }

  ghost function Copied(m: Mem, root: nat, lo: nat, hi: nat): (n: nat) {
    if hi <= lo then 0 else Copied(m, root, lo, hi - 1) + if Copies(m, root, lo, hi - 1) then 1 else 0
  }

  /** How many free pages it takes to open pages [lo, hi) to an access. */
  ghost function CopyPages(m: Mem, tables: Tables, root: nat, lo: nat, hi: nat, read: bool): (n: nat) {
    var absent := Those(m.flat, root, lo, hi, false);
    |absent| + |Missing(tables, root, absent)| + if read then 0 else Copied(m, root, lo, hi)
  }

  lemma {:induction false} CopyGrows(m: Mem, tables: Tables, root: nat, lo: nat, a: nat, b: nat, read: bool)
    requires a <= b
    ensures CopyPages(m, tables, root, lo, a, read) <= CopyPages(m, tables, root, lo, b, read)
  {
    hide Missing, Those, Copies;
    ThoseGrow(m.flat, root, lo, a, b, false);
    MissingGrows(tables, root, Those(m.flat, root, lo, a, false), Those(m.flat, root, lo, b, false));
    Counting.SubsetSize(Those(m.flat, root, lo, a, false), Those(m.flat, root, lo, b, false));
    CopiedGrows(m, root, lo, a, b);
  }

  lemma {:induction false} CopiedGrows(m: Mem, root: nat, lo: nat, a: nat, b: nat)
    requires a <= b
    ensures Copied(m, root, lo, a) <= Copied(m, root, lo, b)
  {
    if a < b { CopiedGrows(m, root, lo, a, b - 1); }
  }

  /** One past the last page of a range of bytes. */
  function Ends(a: nat, len: nat): (v: nat) {
    if len == 0 then a / 4096 else (a + len - 1) / 4096 + 1
  }

  ghost predicate SameFrom(m0: Mem, m: Mem, root: nat, a: nat) {
    forall v: nat :: a <= v ==> SameEntry(m0.flat, m.flat, Slot(root, v))
  }

  ghost predicate SameEntry(flat: map<Slot, Pte>, flat': map<Slot, Pte>, s: Slot) {
    (s in flat <==> s in flat') && (s in flat ==> flat'[s] == flat[s])
  }

  /** The pages behind have dropped their references. */
  ghost predicate CountsFrom(m0: Mem, m: Mem, root: nat, lo: nat, a: nat) {
    forall v: nat :: a <= v && Splits(m0, Slot(root, v), false) ==>
      var p := m0.flat[Slot(root, v)].ppn; Get(m.count, p) + Before(m0, root, lo, a, p) == Get(m0.count, p)
  }

  /** Pages [lo, a) have been opened, which has left `free` of the `free0` pages; the others are as they were. */
  ghost predicate Used(m0: Mem, t0: Tables, free0: nat, m: Mem, t: Tables, free: nat, root: nat, lo: nat, a: nat,
                       read: bool) {
    && lo <= a && SameFrom(m0, m, root, a) && (!read ==> CountsFrom(m0, m, root, lo, a))
    && MadeAll(t0, t, root, Those(m0.flat, root, lo, a, false))
    && free + CopyPages(m0, t0, root, lo, a, read) == free0
  }

  lemma UsedNone(m: Mem, t: Tables, free: nat, root: nat, lo: nat, read: bool)
    ensures Used(m, t, free, m, t, free, root, lo, lo, read)
  {
    ThoseNext(m.flat, root, lo, lo, false);
    MadeAllNone(t, root);
    hide MadeAll, Missing, Those;
  }

  /** What the next page takes. */
  lemma UsedNext(m0: Mem, t0: Tables, free0: nat, m: Mem, t: Tables, free: nat, root: nat, lo: nat, a: nat, read: bool)
    requires Used(m0, t0, free0, m, t, free, root, lo, a, read) && a < UTOP
    ensures CopyPages(m0, t0, root, lo, a + 1, read)
            == CopyPages(m0, t0, root, lo, a, read) + Pages(m, t, Slot(root, a), read)
  {
    hide MadeAll, Missing, Those, Need, Before;
    var s, was := Slot(root, a), Those(m0.flat, root, lo, a, false);
    assert SameEntry(m0.flat, m.flat, s);
    ThoseNext(m0.flat, root, lo, a, false);
    if s in m0.flat {
      hide CopyPages;
      assert was + {} == was;
      CopyMapped(m0, t0, root, lo, a, read);
      if !read && m0.flat[s].cow { assert Splits(m0, s, false); }
    } else {
      MissingMore(t0, t, root, was, a);
      NotIn(m0.flat, root, lo, a);
      assert |was + {a}| == |was| + 1;
    }
  }

  lemma CopyMapped(m: Mem, tables: Tables, root: nat, lo: nat, a: nat, read: bool)
    requires lo <= a && Slot(root, a) in m.flat
    ensures CopyPages(m, tables, root, lo, a + 1, read)
            == CopyPages(m, tables, root, lo, a, read) + if !read && Copies(m, root, lo, a) then 1 else 0
  {
    hide Missing, Those, Copies;
    ThoseNext(m.flat, root, lo, a, false);
    assert Those(m.flat, root, lo, a, false) + {} == Those(m.flat, root, lo, a, false);
  }

  lemma NotIn(flat: map<Slot, Pte>, root: nat, lo: nat, a: nat)
    ensures a !in Those(flat, root, lo, a, false)
  {
  }

  /** Two entries of one page are two references. */
  lemma TwoMap(m: Mem, kern: map<nat, nat>, s: Slot, t: Slot)
    requires Inv(m, kern) && s in m.flat && t in m.flat && s != t && m.flat[s].ppn == m.flat[t].ppn
    ensures m.flat[s].ppn in m.count && m.count[m.flat[s].ppn] > 1
  {
    var p := m.flat[s].ppn;
    assert {s, t} <= Mappers(m.flat, p);
    Counting.SubsetSize({s, t}, Mappers(m.flat, p));
    assert Get(m.count, p) == |Mappers(m.flat, p)| + Get(kern, p);
  }

  lemma CountsMore(m0: Mem, m: Mem, t: Tables, free: nat, m': Mem, t': Tables, free': nat, root: nat, lo: nat, a: nat,
                   kern: map<nat, nat>)
    requires lo <= a && SameFrom(m0, m, root, a) && CountsFrom(m0, m, root, lo, a) && Inv(m, kern)
    requires Took(m, t, free, m', t', free', Slot(root, a), false)
    ensures CountsFrom(m0, m', root, lo, a + 1)
  {
    hide MadeAll, MadeFrom, Pages, Inv;
    forall v: nat | a + 1 <= v && Splits(m0, Slot(root, v), false)
      ensures var p := m0.flat[Slot(root, v)].ppn; Get(m'.count, p) + Before(m0, root, lo, a + 1, p) == Get(m0.count, p)
    {
      var p := m0.flat[Slot(root, v)].ppn;
      assert SameEntry(m0.flat, m.flat, Slot(root, v)) && SameEntry(m0.flat, m.flat, Slot(root, a));
      SlotFine(m, kern, Slot(root, v));
      if Splits(m0, Slot(root, a), false) && m0.flat[Slot(root, a)].ppn == p {
        TwoMap(m, kern, Slot(root, a), Slot(root, v));
      }
    }
  }

  lemma SameMore(m0: Mem, flat: map<Slot, Pte>, flat': map<Slot, Pte>, m: Mem, m': Mem, root: nat, a: nat)
    requires m.flat == Owned(flat) && m'.flat == Owned(flat') && KeptBut(flat, flat', Slot(root, a))
    requires SameFrom(m0, m, root, a)
    ensures SameFrom(m0, m', root, a + 1)
  {
    forall v: nat | a + 1 <= v ensures SameEntry(m0.flat, m'.flat, Slot(root, v)) {
      assert SameEntry(m0.flat, m.flat, Slot(root, v));
    }
  }

  lemma UsedMore(m0: Mem, t0: Tables, free0: nat, flat: map<Slot, Pte>, m: Mem, t: Tables, free: nat,
                 flat': map<Slot, Pte>, m': Mem, t': Tables, free': nat, root: nat, lo: nat, a: nat, read: bool,
                 kern: map<nat, nat>)
    requires Used(m0, t0, free0, m, t, free, root, lo, a, read) && a < UTOP && Inv(m, kern)
    requires m.flat == Owned(flat) && m'.flat == Owned(flat') && KeptBut(flat, flat', Slot(root, a))
    requires Took(m, t, free, m', t', free', Slot(root, a), read)
    ensures Used(m0, t0, free0, m', t', free', root, lo, a + 1, read)
  {
    hide Inv, MadeAll, MadeFrom, Those, Pages, CopyPages, SameFrom, CountsFrom, KeptBut;
    UsedNext(m0, t0, free0, m, t, free, root, lo, a, read);
    SameMore(m0, flat, flat', m, m', root, a);
    if !read { CountsMore(m0, m, t, free, m', t', free', root, lo, a, kern); }
    var was := Those(m0.flat, root, lo, a, false);
    ThoseNext(m0.flat, root, lo, a, false);
    SameHere(m0, m, root, a);
    if Slot(root, a) in m.flat {
      assert was + {} == was;
      MadeAllSame(t0, t, t', root, was);
    } else {
      MadeAllNext(t0, t, t', root, was, a);
    }
  }

  lemma SameHere(m0: Mem, m: Mem, root: nat, a: nat)
    requires SameFrom(m0, m, root, a)
    ensures Slot(root, a) in m0.flat <==> Slot(root, a) in m.flat
  {
    assert SameEntry(m0.flat, m.flat, Slot(root, a));
  }

  /** How a copy to or from `len` bytes at `x` ends at its page `j`. */
  lemma UsedEnds(m0: Mem, t0: Tables, free0: nat, m: Mem, t: Tables, free: nat, root: nat, x: nat, len: nat, j: nat,
                 read: bool)
    requires Used(m0, t0, free0, m, t, free, root, x / 4096, x / 4096 + j, read)
    ensures Cut(x, len, j) == len ==> CopyPages(m0, t0, root, x / 4096, Ends(x, len), read) <= free0
    ensures x / 4096 + j < UTOP && Cut(x, len, j) < len && free < Pages(m, t, Slot(root, x / 4096 + j), read) ==>
              free0 < CopyPages(m0, t0, root, x / 4096, Ends(x, len), read)
  {
    hide CopyPages, Pages, Cut, SameFrom, CountsFrom, MadeAll, Those;
    var lo, a := x / 4096, x / 4096 + j;
    CutPages(x, len, j);
    if Cut(x, len, j) == len {
      CopyGrows(m0, t0, root, lo, Ends(x, len), a, read);
    } else if a < UTOP {
      UsedNext(m0, t0, free0, m, t, free, root, lo, a, read);
      CopyGrows(m0, t0, root, lo, a + 1, Ends(x, len), read);
    }
  }

  /** A copy of `len` bytes fails: some page is barred, or there is too little memory for all of them. */
  ghost predicate Fails(m: Mem, tables: Tables, free: nat, root: nat, a: nat, len: nat, read: bool,
                        files: map<nat, FilePage>) {
    || Barred(m, root, a, len, read, files)
    || free < CopyPages(m, tables, root, a / 4096, Ends(a, len), read)
  }

  /** The page lets a copy go on. */
  ghost predicate Open(m: Mem, tables: Tables, free: nat, s: Slot, read: bool, file: FilePage) {
    !NoAccess(m, s, read, file) && Pages(m, tables, s, read) <= free
  }

  /** The first `j` pages of a copy at `a` are done. */
  ghost predicate Going(m0: Mem, t0: Tables, free0: nat, m: Mem, t: Tables, free: nat, root: nat, a: nat, j: nat,
                        read: bool, files: map<nat, FilePage>) {
    && Passed(m0, m, root, a / 4096, j, read, files)
    && Used(m0, t0, free0, m, t, free, root, a / 4096, a / 4096 + j, read)
  }

  lemma GoingNone(m: Mem, t: Tables, free: nat, root: nat, a: nat, read: bool, files: map<nat, FilePage>)
    ensures Going(m, t, free, m, t, free, root, a, 0, read, files)
  {
    PassedNone(m, root, a / 4096, read, files);
    UsedNone(m, t, free, root, a / 4096, read);
    hide Passed, Used;
  }

  /** How a copy ends: it fails at the first page that is not open. */
  lemma GoingEnds(m0: Mem, t0: Tables, free0: nat, m: Mem, t: Tables, free: nat, root: nat, a: nat, len: nat, j: nat,
                  read: bool, files: map<nat, FilePage>)
    requires Going(m0, t0, free0, m, t, free, root, a, j, read, files)
    ensures Cut(a, len, j) == len ==> !Fails(m0, t0, free0, root, a, len, read, files)
    ensures Cut(a, len, j) < len
            && !Open(m, t, free, Slot(root, a / 4096 + j), read, FileAt(files, a / 4096 + j)) ==>
              Fails(m0, t0, free0, root, a, len, read, files)
  {
    hide Passed, Used, Barred, CopyPages, Ends, Pages, NoAccess, Cut;
    PassedAll(m0, m, root, a, len, j, read, files);
    UsedEnds(m0, t0, free0, m, t, free, root, a, len, j, read);
    Inside(m, Slot(root, a / 4096 + j), read, FileAt(files, a / 4096 + j));
  }

  lemma GoingMore(m0: Mem, t0: Tables, free0: nat, flat: map<Slot, Pte>, m: Mem, t: Tables, free: nat,
                  flat': map<Slot, Pte>, m': Mem, t': Tables, free': nat, root: nat, a: nat, j: nat, read: bool,
                  files: map<nat, FilePage>, kern: map<nat, nat>)
    requires Going(m0, t0, free0, m, t, free, root, a, j, read, files) && Inv(m, kern)
    requires m.flat == Owned(flat) && m'.flat == Owned(flat') && m'.size == m.size
    requires KeptBut(flat, flat', Slot(root, a / 4096 + j))
    requires Open(m, t, free, Slot(root, a / 4096 + j), read, FileAt(files, a / 4096 + j))
    requires Took(m, t, free, m', t', free', Slot(root, a / 4096 + j), read)
    ensures Going(m0, t0, free0, m', t', free', root, a, j + 1, read, files) && a / 4096 + j < UTOP
  {
    hide Inv, Passed, Used, KeptBut, NoAccess, Took, Pages;
    PassedNext(m0, flat, flat', m, m', root, a / 4096, j, read, files);
    Inside(m, Slot(root, a / 4096 + j), read, FileAt(files, a / 4096 + j));
    UsedMore(m0, t0, free0, flat, m, t, free, flat', m', t', free', root, a / 4096, a / 4096 + j, read, kern);
  }

  lemma MadeAfter(tables: Tables, was: Tables, now: Tables, root: nat, vpn: nat)
    requires MadeAll(tables, was, root, {}) && MadeFrom(was, now, root, vpn, 0)
    ensures MadeFrom(tables, now, root, vpn, 0)
  {
    hide Has, Area;
    forall v: nat, k: nat | v < VPNS && k <= 1
      ensures Has(now, root, v, k) <==> Has(tables, root, v, k) || Area(k, v) == Area(k, vpn)
    {
      assert Has(was, root, v, k) <==> Has(tables, root, v, k);
    }
  }

  lemma RootsSame(tables: Tables, sh: Shape)
    ensures RootsKept(tables, sh, tables, sh)
  {
  }

  ghost predicate KeptBut(flat: map<Slot, Pte>, flat': map<Slot, Pte>, s: Slot) {
    forall t :: t != s ==> (t in flat' <==> t in flat) && (t in flat && t in flat' ==> flat'[t] == flat[t])
  }

  /** Some page of the range is one the kernel may not access. */
  ghost predicate Barred(m: Mem, root: nat, a: nat, len: nat, read: bool, files: map<nat, FilePage>) {
    && len > 0
    && exists v: nat :: a / 4096 <= v <= (a + len - 1) / 4096 && NoAccess(m, Slot(root, v), read, FileAt(files, v))
  }

  /** Of the pages from `first` on, the first `j` were accessible in `m0`; whether the others are has not changed. */
  ghost predicate Passed(m0: Mem, m: Mem, root: nat, first: nat, j: nat, read: bool, files: map<nat, FilePage>) {
    && (forall v: nat :: first <= v < first + j ==> !NoAccess(m0, Slot(root, v), read, FileAt(files, v)))
    && (forall v: nat :: first + j <= v ==> (NoAccess(m, Slot(root, v), read, FileAt(files, v)) <==>
                                             NoAccess(m0, Slot(root, v), read, FileAt(files, v))))
  }

  lemma PassedNone(m: Mem, root: nat, first: nat, read: bool, files: map<nat, FilePage>)
    ensures Passed(m, m, root, first, 0, read, files)
  {
  }

  lemma PassedNext(m0: Mem, flat: map<Slot, Pte>, flat': map<Slot, Pte>, m: Mem, m': Mem, root: nat, first: nat, j: nat,
                   read: bool, files: map<nat, FilePage>)
    requires m.flat == Owned(flat) && m'.flat == Owned(flat') && m'.size == m.size
    requires Passed(m0, m, root, first, j, read, files) && KeptBut(flat, flat', Slot(root, first + j))
    requires !NoAccess(m, Slot(root, first + j), read, FileAt(files, first + j))
    ensures Passed(m0, m', root, first, j + 1, read, files)
  {
  }

  lemma Inside(m: Mem, s: Slot, read: bool, file: FilePage)
    ensures !NoAccess(m, s, read, file) ==> s.vpn < UTOP
  {
  }

  lemma PassedAll(m0: Mem, m: Mem, root: nat, a: nat, len: nat, j: nat, read: bool, files: map<nat, FilePage>)
    requires Passed(m0, m, root, a / 4096, j, read, files)
    ensures Cut(a, len, j) == len ==> !Barred(m0, root, a, len, read, files)
    ensures Cut(a, len, j) < len && NoAccess(m, Slot(root, a / 4096 + j), read, FileAt(files, a / 4096 + j)) ==>
              Barred(m0, root, a, len, read, files)
  {
    CutPages(a, len, j);
    hide NoAccess, Cut;
  }

  lemma CutPages(a: nat, len: nat, j: nat)
    ensures Cut(a, len, j) < len <==> len > 0 && a / 4096 + j <= (a + len - 1) / 4096
  {
    var q, o := a / 4096, a % 4096;
    assert a == 4096 * q + o;
  }

  /** A mapped page the program may not access: the kernel does not read it, and writes it if it is copy-on-write. */
  lemma KernelWrites(m: Mem, s: Slot, file: FilePage)
    requires s in m.flat && s.vpn < UTOP && !m.flat[s].u
    ensures NoAccess(m, s, true, file)
    ensures NoAccess(m, s, false, file) <==> !m.flat[s].cow
  {
  }

  /** A stack guard page, writable but not the program's, is closed to the kernel until the process forks. */
  lemma ForkOpensGuard(m: Mem, from: nat, to: nat, vpn: nat, file: FilePage)
    requires Enabled(m, Fork(from, to)) && Slot(from, vpn) in m.flat && vpn < m.size[from] && vpn < UTOP
    requires var pte := m.flat[Slot(from, vpn)]; !pte.u && pte.w && !pte.cow
    ensures NoAccess(m, Slot(from, vpn), false, file)
    ensures var m' := Next(m, Fork(from, to));
            && !NoAccess(m', Slot(from, vpn), false, file) && !NoAccess(m', Slot(to, vpn), false, file)
            && NoAccess(m', Slot(from, vpn), true, file) && NoAccess(m', Slot(to, vpn), true, file)
  {
    ShareUpToAt(m, from, to, m.size[from]);
    hide ShareUpTo;
    KernelWrites(m, Slot(from, vpn), file);
    KernelWrites(Next(m, Fork(from, to)), Slot(from, vpn), file);
    KernelWrites(Next(m, Fork(from, to)), Slot(to, vpn), file);
  }

  /** What fork passes on: the pages below the size. A mapped-file page above it is not in the child. */
  lemma ForkInherits(e: Eager, from: nat, to: nat, vpn: nat)
    requires from in e.size && forall s :: s in e.pages ==> s.root != to
    ensures var child := EagerNext(e, Fork(from, to));
            && (Slot(to, vpn) in child.pages <==> Slot(from, vpn) in e.pages && vpn < e.size[from])
            && (Slot(to, vpn) in child.pages ==> child.pages[Slot(to, vpn)] == e.pages[Slot(from, vpn)])
            && (Slot(from, vpn) in child.pages <==> Slot(from, vpn) in e.pages)
  {
  }

  ghost function Faulted(m: Mem, s: Slot, file: FilePage, p: nat): (e: Eager) {
    if Visible(m, s) then Abs(m) else EagerNext(Abs(m), FileFault(s, FilePte(file, p), file.bytes))
  }

  lemma OkParts(flat: map<Slot, Pte>, count: map<nat, nat>, data: map<nat, Bytes>, size: map<nat, nat>,
                held: map<nat, nat>, tables: Tables, sh: Shape, root: nat)
    requires UserOk(flat, count, data, size, held, tables, sh) && root in size
    ensures IsRoot(tables, sh, root) && size[root] <= UTOP
    ensures Inv(Mem(Owned(flat), count, data, size), KernOf(held, tables))
  {
  }

  lemma ResizeOk(flat: map<Slot, Pte>, count: map<nat, nat>, data: map<nat, Bytes>, size: map<nat, nat>,
                 held: map<nat, nat>, tables: Tables, sh: Shape, root: nat, n: nat)
    requires UserOk(flat, count, data, size, held, tables, sh) && IsRoot(tables, sh, root) && n <= UTOP
    ensures UserOk(flat, count, data, size[root := n], held, tables, sh)
  {
    ResizeInv(Mem(Owned(flat), count, data, size), KernOf(held, tables), size[root := n]);
  }

  lemma RootsCounted(flat: map<Slot, Pte>, count: map<nat, nat>, data: map<nat, Bytes>, size: map<nat, nat>,
                     held: map<nat, nat>, tables: Tables, sh: Shape)
    requires UserOk(flat, count, data, size, held, tables, sh)
    ensures forall root :: root in size ==> root in count
  {
  }

  lemma MappedCounted(flat: map<Slot, Pte>, count: map<nat, nat>, data: map<nat, Bytes>, size: map<nat, nat>,
                      held: map<nat, nat>, tables: Tables, sh: Shape)
    requires UserOk(flat, count, data, size, held, tables, sh)
    ensures Backed(Mem(Owned(flat), count, data, size))
  {
    var m := Mem(Owned(flat), count, data, size);
    forall s | s in m.flat ensures m.flat[s].ppn in m.count && m.flat[s].ppn in m.data { assert SlotOk(m, s); }
  }

  ghost predicate Backed(m: Mem) {
    forall s :: s in m.flat ==> m.flat[s].ppn in m.count && m.flat[s].ppn in m.data
  }

  // ----- uvmalloc page by page

  /** How many free pages uvmalloc takes for [lo, n), the one with which it meets a mapped page included. */
  ghost function Wanted(tables: Tables, flat: map<Slot, Pte>, root: nat, lo: nat, n: nat): (k: nat)
    requires lo <= n
  {
    var v := Stop(flat, root, lo, n);
    v - lo + TablesFor(tables, flat, root, lo, n) + if v < n then 1 else 0
  }

  /** Pages [lo, a) were not mapped; mapping them has left `left` of the `free` pages. */
  ghost predicate Spent(tables: Tables, flat: map<Slot, Pte>, root: nat, lo: nat, a: nat, free: nat, now: Tables,
                        left: nat) {
    lo <= a <= lo + free && Extended(tables, flat, root, lo, a, free - (a - lo), now, left)
  }

  lemma SpentNone(tables: Tables, flat: map<Slot, Pte>, root: nat, lo: nat, free: nat)
    ensures Spent(tables, flat, root, lo, lo, free, tables, free)
  {
    ExtendedNone(tables, flat, root, lo, free);
  }

  lemma SpentMisses(tables: Tables, flat: map<Slot, Pte>, root: nat, lo: nat, a: nat, free: nat, now: Tables, left: nat,
                    owned: map<Slot, Pte>)
    requires Spent(tables, flat, root, lo, a, free, now, left) && owned.Keys <= flat.Keys
    ensures forall s :: s in owned ==> !(s.root == root && lo <= s.vpn < a)
  {
    ExtendedMisses(tables, flat, root, lo, a, free - (a - lo), now, left);
    hide Extended;
  }

  /** What the next page decides. */
  lemma SpentNext(tables: Tables, flat: map<Slot, Pte>, root: nat, lo: nat, a: nat, n: nat, free: nat, now: Tables,
                  left: nat)
    requires Spent(tables, flat, root, lo, a, free, now, left) && a < n <= UTOP
    ensures Slot(root, a) in flat ==> Stop(flat, root, lo, n) == a
    ensures Slot(root, a) in flat ==> Wanted(tables, flat, root, lo, n) == free - left + 1
    ensures Slot(root, a) !in flat && left < 1 + Need(now, root, a) ==> free < Wanted(tables, flat, root, lo, n)
  {
    hide Extended, Stop, TablesFor, Need;
    ExtendedNext(tables, flat, root, lo, a, n, free - (a - lo), now, left);
  }

  lemma SpentMore(tables: Tables, flat: map<Slot, Pte>, root: nat, lo: nat, a: nat, free: nat, was: Tables, left: nat,
                  now: Tables)
    requires Spent(tables, flat, root, lo, a, free, was, left) && a < UTOP && Slot(root, a) !in flat
    requires MadeFrom(was, now, root, a, 0) && left >= 1 + Need(was, root, a)
    ensures Spent(tables, flat, root, lo, a + 1, free, now, left - 1 - Need(was, root, a))
  {
    hide Need, MadeFrom;
    ExtendedMore(tables, flat, root, lo, a, free - (a - lo), was, left, now);
    hide Missing, MadeAll;
  }

  lemma SpentAll(tables: Tables, flat: map<Slot, Pte>, root: nat, lo: nat, n: nat, free: nat, now: Tables, left: nat)
    requires Spent(tables, flat, root, lo, n, free, now, left)
    ensures Stop(flat, root, lo, n) == n && Wanted(tables, flat, root, lo, n) <= free
  {
    ExtendedAll(tables, flat, root, lo, n, free - (n - lo), now, left);
    hide Extended, Stop, TablesFor;
  }

  /** How sbrk with eager allocation ends. */
  datatype GrowResult = Grown | TooBig | OutOfMemory | RemapPanic

  /** `now` is `m` with zeroed pages mapped from the end of the heap of `root` up to `a`. */
  ghost predicate GrownTo(m: Mem, root: nat, a: nat, now: Mem) {
    && root in m.size && m.size[root] <= a && now.size == m.size
    && (forall s :: s in now.flat <==> s in m.flat || (s.root == root && m.size[root] <= s.vpn < a))
    && (forall s :: s in m.flat ==> now.flat[s] == m.flat[s] && m.flat[s].ppn in m.data && m.flat[s].ppn in now.data
                                    && now.data[m.flat[s].ppn] == m.data[m.flat[s].ppn])
    && (forall s :: s in now.flat && s !in m.flat ==>
          && now.flat[s] == LazyPte(now.flat[s].ppn) && now.flat[s].ppn in now.data
          && now.data[now.flat[s].ppn] == ZeroPage())
  }

  lemma GrownNone(m: Mem, root: nat)
    requires root in m.size && Backed(m)
    ensures GrownTo(m, root, m.size[root], m)
  {
  }

  lemma GrownSame(m: Mem, root: nat, a: nat, was: Mem, now: Mem)
    requires GrownTo(m, root, a, was) && Backed(was) && now.flat == was.flat && now.size == was.size
    requires forall p :: p in was.count && p in was.data ==> p in now.data && now.data[p] == was.data[p]
    ensures GrownTo(m, root, a, now)
  {
  }

  lemma GrownMore(m: Mem, root: nat, a: nat, was: Mem, now: Mem, p: nat)
    requires GrownTo(m, root, a, was) && Backed(was) && Slot(root, a) !in was.flat && p !in was.count
    requires now.flat == was.flat[Slot(root, a) := LazyPte(p)] && now.size == was.size
    requires now.data == was.data[p := ZeroPage()]
    ensures GrownTo(m, root, a + 1, now)
  {
  }

  lemma GrownAbs(m: Mem, root: nat, n: nat, now: Mem)
    requires GrownTo(m, root, n, now)
    ensures Abs(now.(size := m.size[root := n])) == EagerNext(Abs(m), Grow(root, n))
  {
    var big, e := now.(size := m.size[root := n]), EagerNext(Abs(m), Grow(root, n));
    forall s ensures s in e.pages <==> Visible(big, s) { GrownView(m, root, n, now, s); }
    forall s | Visible(big, s) ensures e.pages[s] == View(big, s) { GrownView(m, root, n, now, s); }
    AbsEqual(big, e);
  }

  lemma GrownView(m: Mem, root: nat, n: nat, now: Mem, s: Slot)
    requires GrownTo(m, root, n, now)
    ensures var big := now.(size := m.size[root := n]);
            && (Visible(big, s) <==> Visible(m, s) || (s.root == root && s.vpn < n))
            && (Visible(big, s) ==> View(big, s) == if Visible(m, s) then View(m, s) else HeapPage())
  {
  }

  lemma GrownUndo(m: Mem, root: nat, a: nat, now: Mem)
    requires GrownTo(m, root, a, now) && forall s :: s in m.flat ==> !(s.root == root && m.size[root] <= s.vpn < a)
    ensures Abs(UnmapRange(now, root, m.size[root], a)) == Abs(m)
  {
    UnmapRangeAt(now, root, m.size[root], a);
    hide UnmapRange;
    assert UnmapRange(now, root, m.size[root], a).flat == m.flat;
    AbsFrame(UnmapRange(now, root, m.size[root], a), m);
  }

  // ----- the end of an address space

  ghost function Without(e: Eager, root: nat): (r: Eager) {
    Eager(map s | s in e.pages && s.root != root :: e.pages[s], e.size - {root})
  }

  lemma FreeAbs(m: Mem, root: nat)
    requires root in m.size && forall s :: s in m.flat && s.root == root ==> s.vpn < m.size[root]
    ensures Abs(UnmapRange(m, root, 0, m.size[root]).(size := m.size - {root})) == Without(Abs(m), root)
  {
    UnmapRangeAt(m, root, 0, m.size[root]);
    hide UnmapRange;
    AbsEqual(UnmapRange(m, root, 0, m.size[root]).(size := m.size - {root}), Without(Abs(m), root));
  }

  /** Page-table pages are counted once, for the tables themselves, so freeing some leaves everything conserved. */
  lemma FreeTablesInv(m: Mem, held: map<nat, nat>, tables: Tables, sub: set<nat>, size: map<nat, nat>)
    requires Inv(m, KernOf(held, tables)) && TablesCounted(tables, m.count) && sub <= tables.Keys
    ensures Inv(Mem(m.flat, m.count - sub, m.data, size), KernOf(held, tables - sub))
  {
    var m' := Mem(m.flat, m.count - sub, m.data, size);
    assert Conserved(m'.flat, m'.count, KernOf(held, tables - sub)) by {
      forall p ensures Get(m'.count, p) == |Mappers(m.flat, p)| + Get(KernOf(held, tables - sub), p) {
        assert Get(m.count, p) == |Mappers(m.flat, p)| + Get(KernOf(held, tables), p);
      }
    }
    hide Conserved, KernOf;
    forall s | s in m'.flat ensures SlotOk(m', s) {
      assert SlotOk(m, s);
      TableUnmapped(m, held, tables, s);
    }
  }

  lemma FreeTablesOk(flat: map<Slot, Pte>, count: map<nat, nat>, data: map<nat, Bytes>, size: map<nat, nat>,
                     held: map<nat, nat>, tables: Tables, sh: Shape, root: nat, tables': Tables)
    requires UserOk(flat, count, data, size, held, tables, sh)
    requires tables' == tables - Subtree(tables, sh, root)
    requires forall x :: IsRoot(tables, sh, x) && x != root ==> IsRoot(tables', sh, x)
    ensures UserOk(flat, count - Subtree(tables, sh, root), data, size - {root}, held, tables', sh)
  {
    FreeTablesInv(Mem(Owned(flat), count, data, size), held, tables, Subtree(tables, sh, root), size - {root});
    hide Inv, KernOf, Owned;
  }

  // ----- copying between kernel and user memory

  function Splice(page: Bytes, off: nat, chunk: Bytes): (r: Bytes)
    requires off + |chunk| <= |page|
    ensures |r| == |page|
    ensures forall i :: 0 <= i < |page| ==> r[i] == if off <= i < off + |chunk| then chunk[i - off] else page[i]
  {
    page[..off] + chunk + page[off + |chunk|..]
  }

  ghost function Stored(e: Eager, s: Slot, off: nat, chunk: Bytes): (r: Eager) {
    if s in e.pages && off + |chunk| <= |e.pages[s].bytes|
    then e.(pages := e.pages[s := e.pages[s].(bytes := Splice(e.pages[s].bytes, off, chunk))])
    else e
  }

  /** The page of a mapped file appears when it is first touched. */
  ghost function Opened(e: Eager, s: Slot, file: FilePage): (r: Eager) {
    if s in e.pages || file.NoFile? then e
    else e.(pages := e.pages[s := Page(file.bytes, file.w, file.r, file.x, true)])
  }

  lemma OpenedIs(m: Mem, s: Slot, file: FilePage)
    ensures s in Abs(m).pages <==> Visible(m, s)
    ensures forall p: nat :: !file.NoFile? || Visible(m, s) ==> Faulted(m, s, file, p) == Opened(Abs(m), s, file)
  {
  }

  lemma StoreOk(flat: map<Slot, Pte>, count: map<nat, nat>, data: map<nat, Bytes>, size: map<nat, nat>,
                held: map<nat, nat>, tables: Tables, sh: Shape, s: Slot, off: nat, chunk: Bytes)
    requires UserOk(flat, count, data, size, held, tables, sh) && s in flat && flat[s].w && s.vpn < UTOP
    requires off + |chunk| <= 4096
    ensures flat[s].ppn in data && |data[flat[s].ppn]| == 4096
    ensures var m := Mem(Owned(flat), count, data, size);
            var data' := data[flat[s].ppn := Splice(data[flat[s].ppn], off, chunk)];
            && UserOk(flat, count, data', size, held, tables, sh)
            && s in Abs(m).pages && Abs(m.(data := data')) == Stored(Abs(m), s, off, chunk)
  {
    var m, kern := Mem(Owned(flat), count, data, size), KernOf(held, tables);
    OwnedSet(flat, s, flat[s]);
    assert SlotOk(m, s);
    var bytes := Splice(data[flat[s].ppn], off, chunk);
    StoreInv(m, kern, s, bytes);
    StoreAbs(m, kern, s, bytes);
  }

  ghost predicate FilesOk(files: map<nat, FilePage>) {
    forall v :: v in files ==> v < UTOP && |files[v].bytes| == 4096
  }

  function FileAt(files: map<nat, FilePage>, vpn: nat): (f: FilePage) {
    if vpn in files then files[vpn] else NoFile(ZeroPage())
  }

  lemma FileFine(files: map<nat, FilePage>, vpn: nat)
    requires FilesOk(files)
    ensures |FileAt(files, vpn).bytes| == 4096 && (vpn >= UTOP ==> FileAt(files, vpn).NoFile?)
  {
  }

  /** How many bytes of a copy to `dst` go to its first `j` pages. */
  function Cut(dst: nat, len: nat, j: nat): (i: nat)
    ensures i <= len
  {
    var all := if j == 0 then 0 else 4096 * j - dst % 4096;
    if all < len then all else len
  }

  /** What the first `j` pages of a copy of `src` to address `dst` do to the programs' view. */
  ghost function CopyTo(e: Eager, root: nat, dst: nat, src: Bytes, files: map<nat, FilePage>, j: nat): (r: Eager) {
    if j == 0 then e else
    var lo, hi := Cut(dst, |src|, j - 1), Cut(dst, |src|, j);
    var s := Slot(root, dst / 4096 + j - 1);
    if lo > hi then e else
    Stored(Opened(CopyTo(e, root, dst, src, files, j - 1), s, FileAt(files, s.vpn)),
           s, if j == 1 then dst % 4096 else 0, src[lo..hi])
  }

  lemma CutNext(dst: nat, len: nat, j: nat, i: nat, n: nat)
    requires i == Cut(dst, len, j) < len && (dst + i) / 4096 == dst / 4096 + j && (j > 0 ==> (dst + i) % 4096 == 0)
    requires n == if 4096 - (dst + i) % 4096 > len - i then len - i else 4096 - (dst + i) % 4096
    ensures i + n == Cut(dst, len, j + 1) && n > 0
    ensures i + n < len ==> (dst + i + n) / 4096 == dst / 4096 + j + 1 && (dst + i + n) % 4096 == 0
  {
  }

  lemma CutNone(dst: nat, len: nat)
    ensures Cut(dst, len, 0) == 0
  {
  }

  lemma CopyToNone(e: Eager, root: nat, dst: nat, src: Bytes, files: map<nat, FilePage>)
    ensures CopyTo(e, root, dst, src, files, 0) == e && Cut(dst, |src|, 0) == 0
  {
  }

  lemma CopyToNext(e: Eager, root: nat, dst: nat, src: Bytes, files: map<nat, FilePage>, j: nat, i: nat, n: nat,
                   off: nat)
    requires i == Cut(dst, |src|, j) && i + n == Cut(dst, |src|, j + 1)
    requires off == (dst + i) % 4096 && (j > 0 ==> off == 0)
    ensures CopyTo(e, root, dst, src, files, j + 1) ==
              Stored(Opened(CopyTo(e, root, dst, src, files, j), Slot(root, dst / 4096 + j),
                            FileAt(files, dst / 4096 + j)), Slot(root, dst / 4096 + j), off, src[i..i + n])
  {
    hide Stored, Opened;
  }

  /** Address spaces other than the target of a copy keep every page. */
  lemma {:induction false} CopyIsolated(e: Eager, root: nat, dst: nat, src: Bytes, files: map<nat, FilePage>, j: nat,
                                        s: Slot)
    requires s.root != root
    ensures s in CopyTo(e, root, dst, src, files, j).pages <==> s in e.pages
    ensures s in e.pages ==> CopyTo(e, root, dst, src, files, j).pages[s] == e.pages[s]
  {
    if j > 0 { CopyIsolated(e, root, dst, src, files, j - 1, s); }
  }

  ghost predicate FullPages(e: Eager) {
    forall s :: s in e.pages ==> |e.pages[s].bytes| == 4096
  }

  /** Byte by byte: the target range holds `src`, every other byte is what it was. */
  lemma {:induction false} CopyBytes(e: Eager, root: nat, dst: nat, src: Bytes, files: map<nat, FilePage>, j: nat,
                                     v: nat, off: nat)
    requires FullPages(e) && FilesOk(files) && off < 4096
    ensures FullPages(CopyTo(e, root, dst, src, files, j))
    ensures Slot(root, v) in e.pages ==> Slot(root, v) in CopyTo(e, root, dst, src, files, j).pages
    ensures var s, r, a := Slot(root, v), CopyTo(e, root, dst, src, files, j), v * 4096 + off;
            s in r.pages ==>
              if dst <= a < dst + Cut(dst, |src|, j) then r.pages[s].bytes[off] == src[a - dst]
              else s in e.pages ==> r.pages[s].bytes[off] == e.pages[s].bytes[off]
  {
    hide Stored, Opened;
    if j > 0 {
      CopyBytes(e, root, dst, src, files, j - 1, v, off);
      CutPage(dst, |src|, j, v, off);
      var lo, hi := Cut(dst, |src|, j - 1), Cut(dst, |src|, j);
      var p := Slot(root, dst / 4096 + j - 1);
      StepBytes(CopyTo(e, root, dst, src, files, j - 1), p, FileAt(files, p.vpn),
                if j == 1 then dst % 4096 else 0, src[lo..hi], Slot(root, v), off);
      hide Cut;
    }
  }

  lemma StepBytes(e: Eager, s: Slot, file: FilePage, o: nat, chunk: Bytes, t: Slot, off: nat)
    requires FullPages(e) && |file.bytes| == 4096 && o + |chunk| <= 4096 && off < 4096
    ensures var r := Stored(Opened(e, s, file), s, o, chunk);
            && FullPages(r) && (t in e.pages ==> t in r.pages)
            && (t in r.pages && t == s && o <= off < o + |chunk| ==> r.pages[t].bytes[off] == chunk[off - o])
            && (t in e.pages && !(t == s && o <= off < o + |chunk|) ==> r.pages[t].bytes[off] == e.pages[t].bytes[off])
            && (t in r.pages && t != s ==> t in e.pages)
  {
  }

  /** Which bytes go to page `j - 1` of a copy. */
  lemma CutPage(dst: nat, len: nat, j: nat, v: nat, off: nat)
    requires j > 0 && off < 4096
    ensures Cut(dst, len, j - 1) <= Cut(dst, len, j)
    ensures (if j == 1 then dst % 4096 else 0) + Cut(dst, len, j) - Cut(dst, len, j - 1) <= 4096
    ensures var a := v * 4096 + off;
            var o := if j == 1 then dst % 4096 else 0;
            v == dst / 4096 + j - 1 ==>
              (dst + Cut(dst, len, j - 1) <= a < dst + Cut(dst, len, j) <==>
               o <= off < o + Cut(dst, len, j) - Cut(dst, len, j - 1)) &&
              (Cut(dst, len, j - 1) < Cut(dst, len, j) ==> off - o == a - dst - Cut(dst, len, j - 1))
    ensures v != dst / 4096 + j - 1 ==> !(dst + Cut(dst, len, j - 1) <= v * 4096 + off < dst + Cut(dst, len, j))
  {
    assert dst == dst / 4096 * 4096 + dst % 4096;
  }

  /** `now` shows everything `was` shows; new pages belong to `root`. */
  ghost predicate Extends(was: Eager, now: Eager, root: nat) {
    && now.size == was.size
    && (forall s :: s in was.pages ==> s in now.pages && now.pages[s] == was.pages[s])
    && (forall s :: s in now.pages && s !in was.pages ==> s.root == root)
  }

  ghost predicate ByteAt(e: Eager, root: nat, a: nat, b: int) {
    var s := Slot(root, a / 4096);
    s in e.pages && |e.pages[s].bytes| == 4096 && e.pages[s].bytes[a % 4096] == b
  }

  /** The bytes at `src` are `got`. */
  ghost predicate Reads(e: Eager, root: nat, src: nat, got: Bytes) {
    forall i: nat :: i < |got| ==> ByteAt(e, root, src + i, got[i])
  }

  lemma ExtendsSame(e: Eager, root: nat)
    ensures Extends(e, e, root)
  {
  }

  lemma ReadsNone(e: Eager, root: nat, src: nat)
    ensures Reads(e, root, src, [])
  {
  }

  lemma ExtendsMore(was: Eager, e: Eager, root: nat, vpn: nat, file: FilePage)
    requires Extends(was, e, root)
    ensures Extends(was, Opened(e, Slot(root, vpn), file), root)
  {
  }

  lemma ReadsMore(e: Eager, now: Eager, root: nat, src: nat, got: Bytes, vpn: nat, file: FilePage, chunk: Bytes)
    requires Reads(e, root, src, got) && now == Opened(e, Slot(root, vpn), file)
    requires vpn == (src + |got|) / 4096 && (src + |got|) % 4096 + |chunk| <= 4096
    requires Slot(root, vpn) in now.pages && |now.pages[Slot(root, vpn)].bytes| == 4096
    requires chunk == now.pages[Slot(root, vpn)].bytes[(src + |got|) % 4096..(src + |got|) % 4096 + |chunk|]
    ensures Reads(now, root, src, got + chunk)
  {
    forall i: nat | i < |got + chunk| ensures ByteAt(now, root, src + i, (got + chunk)[i]) {
      if i < |got| {
        assert ByteAt(e, root, src + i, got[i]);
      } else {
        SamePage(src + |got|, i - |got|);
      }
    }
  }

  lemma SamePage(a: nat, d: nat)
    requires a % 4096 + d < 4096
    ensures (a + d) / 4096 == a / 4096 && (a + d) % 4096 == a % 4096 + d
  {
  }

  lemma PeekOk(flat: map<Slot, Pte>, count: map<nat, nat>, data: map<nat, Bytes>, size: map<nat, nat>,
               held: map<nat, nat>, tables: Tables, sh: Shape, s: Slot)
    requires UserOk(flat, count, data, size, held, tables, sh) && s in flat && s.vpn < UTOP
    ensures flat[s].ppn in data && |data[flat[s].ppn]| == 4096
    ensures s in Abs(Mem(Owned(flat), count, data, size)).pages
    ensures Abs(Mem(Owned(flat), count, data, size)).pages[s].bytes == data[flat[s].ppn]
  {
    assert SlotOk(Mem(Owned(flat), count, data, size), s);
  }

  class Vm {
    const pt: PageTables
    const kmem: Kmem
    var data: map<nat, Bytes>
    var size: map<nat, nat>
    ghost var held: map<nat, nat>

    ghost function M(): (m: Mem)
      reads this, pt, kmem
    {
      Mem(Owned(pt.flat), kmem.count, data, size)
    }

    ghost predicate Ok()
      reads this, pt, kmem
    {
      UserOk(pt.flat, kmem.count, data, size, held, pt.tables, pt.sh)
    }

    ghost predicate Valid()
      reads this, pt, kmem
    {
      pt.kmem == kmem && pt.Valid() && Ok()
    }

    /** No address spaces yet. */
    constructor (pt: PageTables)
      requires pt.Valid() && pt.flat == map[] && pt.tables == map[] && pt.kmem.count == map[]
      ensures Valid() && this.pt == pt && kmem == pt.kmem && size == map[] && data == map[] && held == map[]
    {
      this.pt, this.kmem := pt, pt.kmem;
      data, size, held := map[], map[], map[];
      new;
      assert forall p :: Mappers(map[], p) == {};
    }

    /** A new address space of size 0, as allocproc makes it. */
    method NewSpace() returns (root: nat)
      requires Valid()
      modifies this`size, pt, kmem
      ensures Valid() && pt.flat == old(pt.flat) && |kmem.free| + 1 >= |old(kmem.free)|
      ensures root == 0 <==> old(kmem.free) == []
      ensures root == 0 ==> size == old(size) && Abs(M()) == old(Abs(M()))
      ensures root != 0 ==> && root !in old(size) && size == old(size)[root := 0]
                            && Abs(M()) == EagerNext(old(Abs(M())), Grow(root, 0))
    {
      hide Kmem.Valid, UserOk, Trees, Flattens, Abs, EagerNext;
      RootsCounted(pt.flat, kmem.count, data, size, held, pt.tables, pt.sh);
      root := pt.Uvmcreate();
      SameAbs(M(), old(M()));
      GrewOk(pt.flat, old(kmem.count), data, size, held, old(pt.tables), old(pt.sh), pt.tables, pt.sh, kmem.count);
      if root != 0 {
        GrowAbs(M(), root, 0);
        Resize(root, 0);
      }
    }

    /** kalloc and fill: a page held by the kernel, or 0. */
    method NewPage(bytes: Bytes) returns (p: nat)
      requires Valid() && |bytes| == 4096
      modifies this`data, this`held, kmem
      ensures Valid()
      ensures p == 0 <==> old(kmem.free) == []
      ensures p == 0 ==> kmem.count == old(kmem.count) && data == old(data) && held == old(held) && kmem.free == []
      ensures p != 0 ==> && p !in old(kmem.count) && kmem.count == old(kmem.count)[p := 1]
                         && data == old(data)[p := bytes] && held == old(held)[p := 1]
                         && |kmem.free| + 1 == |old(kmem.free)|
    {
      hide Kmem.Valid, UserOk, Trees, Flattens;
      p := kmem.Kalloc();
      if p != 0 {
        TakeOk(pt.flat, old(kmem.count), data, size, held, pt.tables, pt.sh, p, bytes);
        data := data[p := bytes];
        held := held[p := 1];
      }
    }

    /** kfree of a page the kernel holds. */
    method DropPage(p: nat)
      requires Valid() && Get(held, p) > 0
      modifies this`held, kmem
      ensures Valid()
      ensures kmem.count == Dec(old(kmem.count), p) && held == Dec(old(held), p)
      ensures |old(kmem.free)| <= |kmem.free| <= |old(kmem.free)| + 1
    {
      DropOk(pt.flat, kmem.count, data, size, held, pt.tables, pt.sh, p);
      hide Kmem.Valid, Trees, Flattens, Inv;
      var ok := kmem.Kfree(p);
      held := Dec(held, p);
    }

    /** mappages of one page the kernel holds, which then belongs to the address space. */
    method MapHeld(root: nat, vpn: nat, pte: Pte) returns (r: MapResult)
      requires Valid() && pt.Root(root) && vpn < UTOP
      requires pte.v && !pte.cow && Get(held, pte.ppn) > 0 && pte.ppn in data && Get(kmem.count, pte.ppn) == 1
      modifies this`held, pt, kmem
      ensures |kmem.free| + 2 >= |old(kmem.free)|
      ensures r.NoMemory? <==> |old(kmem.free)| < Need(old(pt.tables), root, vpn)
      ensures r.Remap? ==> Need(old(pt.tables), root, vpn) == 0
      ensures r.Mapped? ==> && |kmem.free| == |old(kmem.free)| - Need(old(pt.tables), root, vpn)
                            && MadeFrom(old(pt.tables), pt.tables, root, vpn, 0)
      ensures Valid() && (r.Remap? <==> Slot(root, vpn) in old(pt.flat))
      ensures r.Mapped? ==> pt.flat == old(pt.flat)[Slot(root, vpn) := pte] && held == Dec(old(held), pte.ppn)
      ensures !r.Mapped? ==> pt.flat == old(pt.flat) && held == old(held)
      ensures r.NoMemory? ==> kmem.free == [] && Need(pt.tables, root, vpn) > 0
      ensures forall p :: p in old(kmem.count) ==> p in kmem.count && kmem.count[p] == old(kmem.count)[p]
      ensures RootsKept(old(pt.tables), old(pt.sh), pt.tables, pt.sh)
    {
      hide Kmem.Valid, UserOk, PageTables.Valid, Need, MadeFrom;
      r := pt.MapPage(root, vpn, pte);
      GrewOk(old(pt.flat), old(kmem.count), data, size, held, old(pt.tables), old(pt.sh), pt.tables, pt.sh, kmem.count);
      if r.Mapped? {
        GiveOk(old(pt.flat), kmem.count, data, size, held, pt.tables, pt.sh, Slot(root, vpn), pte);
        held := Dec(held, pte.ppn);
      }
    }

    /** One iteration of uvmunmap with do_free. */
    method UnmapOne(root: nat, vpn: nat)
      requires Valid() && pt.Root(root) && vpn < UTOP
      modifies pt, kmem
      ensures Valid() && M() == Unmap(old(M()), Slot(root, vpn))
      ensures pt.flat == old(pt.flat) - {Slot(root, vpn)}
      ensures RootsKept(old(pt.tables), old(pt.sh), pt.tables, pt.sh)
    {
      hide Kmem.Valid, UserOk, Trees, Flattens, Unmap;
      ghost var s := Slot(root, vpn);
      var t := pt.Walk(root, vpn, false);
      var pte := pt.GetPte(root, vpn, t);
      if !pte.v {
        UnmapNone(M(), pt.flat, s);
        return;
      }
      UnmapOk(pt.flat, kmem.count, data, size, held, pt.tables, pt.sh, s);
      var ok := kmem.Kfree(pte.ppn);
      pt.SetPte(root, vpn, t, NullPte());
      SameTables(pt.flat, kmem.count, data, size, held, old(pt.tables), old(pt.sh), pt.tables);
    }

    /** uvmunmap with do_free: the pages [vpn, vpn + n) are unmapped and released. */
    method Uvmunmap(root: nat, vpn: nat, n: nat)
      requires Valid() && pt.Root(root) && vpn + n <= UTOP
      modifies pt, kmem
      ensures Valid() && M() == UnmapRange(old(M()), root, vpn, vpn + n)
      ensures RootsKept(old(pt.tables), old(pt.sh), pt.tables, pt.sh)
      ensures forall s :: s in pt.flat <==> s in old(pt.flat) && !(s.root == root && vpn <= s.vpn < vpn + n)
    {
      hide Kmem.Valid, UserOk, Owned, IsRoot, Unmap, PageTables.Valid;
      for a := vpn to vpn + n
        invariant Valid() && M() == UnmapRange(old(M()), root, vpn, a)
        invariant RootsKept(old(pt.tables), old(pt.sh), pt.tables, pt.sh)
        invariant forall s :: s in pt.flat <==> s in old(pt.flat) && !(s.root == root && vpn <= s.vpn < a)
      {
        UnmapOne(root, a);
      }
    }

    /** One iteration of uvmcopy. */
    method ShareOne(from: nat, to: nat, vpn: nat) returns (ok: bool)
      requires Valid() && pt.Root(from) && pt.Root(to) && from != to && vpn < UTOP && Slot(to, vpn) !in pt.flat
      modifies pt, kmem
      ensures Valid() && RootsKept(old(pt.tables), old(pt.sh), pt.tables, pt.sh)
      ensures pt.flat == SharedFlat(old(pt.flat), from, to, vpn, ok)
      ensures Slot(from, vpn) !in old(pt.flat) ==> ok && pt.tables == old(pt.tables) && kmem.free == old(kmem.free)
      ensures Slot(from, vpn) in old(pt.flat) ==>
                && (!ok <==> |old(kmem.free)| < Need(old(pt.tables), to, vpn))
                && (ok ==> && |kmem.free| == |old(kmem.free)| - Need(old(pt.tables), to, vpn)
                           && MadeFrom(old(pt.tables), pt.tables, to, vpn, 0))
    {
      hide Kmem.Valid, UserOk, PageTables.Valid, IsRoot, Need, MadeFrom;
      ghost var s := Slot(from, vpn);
      var t := pt.Walk(from, vpn, false);
      var pte := pt.GetPte(from, vpn, t);
      if !pte.v { return true; }
      FlagsOk(pt.flat, kmem.count, data, size, held, pt.tables, pt.sh, s);
      if pte.w {
        pte := pte.(w := false, cow := true);
        pt.SetPte(from, vpn, t, pte);
      } else {
        assert pt.flat == pt.flat[s := pte];
      }
      ghost var flat := old(pt.flat)[s := pte];
      SameTables(flat, kmem.count, data, size, held, old(pt.tables), old(pt.sh), pt.tables);
      ghost var tables, sh, count := pt.tables, pt.sh, kmem.count;
      SamePaths(old(pt.tables), tables, to);
      var r := pt.MapPage(to, vpn, pte);
      if r.Mapped? { MadeAfter(old(pt.tables), tables, pt.tables, to, vpn); }
      GrewOk(flat, count, data, size, held, tables, sh, pt.tables, pt.sh, kmem.count);
      if !r.Mapped? { return false; }
      ShareOk(flat, kmem.count, data, size, held, pt.tables, pt.sh, from, to, vpn);
      assert pt.flat == flat[Slot(to, vpn) := pte];
      Retain(pte.ppn);
      ok := true;
    }

    /**
     uvmcopy: the child shares the first `n` pages of the parent, or nothing when memory runs out
     at page `k`.
     */
    method Uvmcopy(from: nat, to: nat, n: nat) returns (ok: bool, ghost k: nat)
      requires Valid() && pt.Root(from) && pt.Root(to) && from != to && n <= UTOP
      requires forall s :: s in pt.flat && s.root == to ==> s.vpn >= UTOP
      modifies pt, kmem
      ensures Valid() && RootsKept(old(pt.tables), old(pt.sh), pt.tables, pt.sh)
      ensures !ok <==> |old(kmem.free)| < |Missing(old(pt.tables), to, Those(old(pt.flat), from, 0, n, true))|
      ensures ok ==> SameView(M(), ShareUpTo(old(M()), from, to, n))
      ensures !ok ==> k < n
      ensures !ok ==> SameView(M(), UnmapRange(Mark(ShareUpTo(old(M()), from, to, k), Slot(from, k)), to, 0, k))
    {
      hide Kmem.Valid, UserOk, PageTables.Valid, IsRoot, Owned, SharedFlat, Share, Mark, UnmapRange;
      hide Need, MadeFrom, Copying;
      ok, k := true, 0;
      ghost var T, F, free := pt.tables, pt.flat, |kmem.free|;
      CopyingNone(T, F, from, to, free);
      for i := 0 to n
        invariant Valid() && ok && k == i
        invariant RootsKept(old(pt.tables), old(pt.sh), pt.tables, pt.sh)
        invariant SameView(M(), ShareUpTo(old(M()), from, to, i))
        invariant forall s :: s in pt.flat && s.root == to ==> s.vpn >= UTOP || s.vpn < i
        invariant forall v: nat :: Slot(from, v) in pt.flat <==> Slot(from, v) in F
        invariant Copying(T, F, from, to, i, free, pt.tables, |kmem.free|)
      {
        ghost var m, flat, tables, left := M(), pt.flat, pt.tables, |kmem.free|;
        CopyingNext(T, F, from, to, i, n, free, tables, left);
        ok := ShareOne(from, to, i);
        SharedFlatView(m, flat, from, to, i, ok);
        if !ok {
          MarkSame(m, ShareUpTo(old(M()), from, to, i), Slot(from, i));
          UnmapRangeView(M(), Mark(ShareUpTo(old(M()), from, to, i), Slot(from, i)), to, 0, i);
          Uvmunmap(to, 0, i);
          return;
        }
        CopyingMore(T, F, from, to, i, free, tables, left, pt.tables, |kmem.free|);
        ShareView(m, ShareUpTo(old(M()), from, to, i), from, to, i);
        k := k + 1;
      }
      CopyingAll(T, F, from, to, n, free, pt.tables, |kmem.free|);
    }

    /** vmfault for a store to a copy-on-write page: alone the page becomes writable, otherwise it is copied. */
    method BreakSharing(root: nat, vpn: nat, t: nat, pte: Pte) returns (pa: nat)
      requires Valid() && pt.Root(root) && vpn < UTOP && t == Path(pt.tables, root, vpn, 0) != 0
      requires Slot(root, vpn) in pt.flat && pte == pt.flat[Slot(root, vpn)]
      modifies this`data, pt, kmem
      ensures Valid() && RootsKept(old(pt.tables), old(pt.sh), pt.tables, pt.sh)
      ensures pa == 0 <==> Get(old(kmem.count), pte.ppn) != 1 && old(kmem.free) == []
      ensures pa == 0 ==> M() == old(M()) && pt.flat == old(pt.flat) && kmem.free == []
      ensures pa != 0 ==>
                |old(kmem.free)| == |kmem.free| + if Get(old(kmem.count), pte.ppn) == 1 then 0 else 1
      ensures MadeAll(old(pt.tables), pt.tables, root, {})
      ensures pa != 0 ==> && pt.flat == old(pt.flat)[Slot(root, vpn) := Unshared(pte).(ppn := pa)]
                          && exists p :: Fresh(old(M()), p) && M() == BreakCow(old(M()), Slot(root, vpn), p)
    {
      hide Kmem.Valid, UserOk, Trees, Flattens, IsRoot, BreakCow, Owned, MadeAll;
      MadeAllNone(pt.tables, root);
      ghost var spare := Unused(kmem.count);
      BreakOk(pt.flat, kmem.count, data, size, held, pt.tables, pt.sh, Slot(root, vpn), spare);
      kmem.Managed(pte.ppn);
      var ok, c := kmem.Krefcnt(pte.ppn);
      if c == 1 {
        Reclaim(root, vpn, t, pte, spare);
        pa := pte.ppn;
      } else {
        pa := Unshare(root, vpn, t, pte);
      }
    }

    /** The only mapper of a page takes it back. */
    method Reclaim(root: nat, vpn: nat, t: nat, pte: Pte, ghost spare: nat)
      requires Valid() && pt.Root(root) && vpn < UTOP && t == Path(pt.tables, root, vpn, 0) != 0
      requires Slot(root, vpn) in pt.flat && pte == pt.flat[Slot(root, vpn)] && Get(kmem.count, pte.ppn) == 1
      requires spare !in kmem.count
      modifies pt
      ensures Valid() && RootsKept(old(pt.tables), old(pt.sh), pt.tables, pt.sh)
      ensures pt.flat == old(pt.flat)[Slot(root, vpn) := Unshared(pte)]
      ensures Fresh(old(M()), spare) && M() == BreakCow(old(M()), Slot(root, vpn), spare)
      ensures MadeAll(old(pt.tables), pt.tables, root, {})
    {
      hide Kmem.Valid, UserOk, Trees, Flattens, IsRoot, BreakCow, Owned, MadeAll;
      BreakOk(pt.flat, kmem.count, data, size, held, pt.tables, pt.sh, Slot(root, vpn), spare);
      pt.SetPte(root, vpn, t, pte.(w := true, cow := false));
      SamePaths(old(pt.tables), pt.tables, root);
      SameTables(pt.flat, kmem.count, data, size, held, old(pt.tables), old(pt.sh), pt.tables);
    }

    /** One of several mappers of a page gets its own copy. */
    method Unshare(root: nat, vpn: nat, t: nat, pte: Pte) returns (pa: nat)
      requires Valid() && pt.Root(root) && vpn < UTOP && t == Path(pt.tables, root, vpn, 0) != 0
      requires Slot(root, vpn) in pt.flat && pte == pt.flat[Slot(root, vpn)] && Get(kmem.count, pte.ppn) != 1
      modifies this`data, pt, kmem
      ensures Valid() && RootsKept(old(pt.tables), old(pt.sh), pt.tables, pt.sh)
      ensures pa == 0 <==> old(kmem.free) == []
      ensures pa == 0 ==> M() == old(M()) && pt.flat == old(pt.flat) && pt.tables == old(pt.tables) && kmem.free == []
      ensures pa != 0 ==> |kmem.free| + 1 == |old(kmem.free)| && MadeAll(old(pt.tables), pt.tables, root, {})
      ensures pa != 0 ==> && pt.flat == old(pt.flat)[Slot(root, vpn) := Unshared(pte).(ppn := pa)]
                          && Fresh(old(M()), pa) && M() == BreakCow(old(M()), Slot(root, vpn), pa)
    {
      hide Kmem.Valid, UserOk, Trees, Flattens, IsRoot, BreakCow, Owned, MadeAll;
      ghost var s := Slot(root, vpn);
      pa := kmem.Kalloc();
      if pa == 0 { return; }
      BreakOk(old(pt.flat), old(kmem.count), data, size, held, pt.tables, pt.sh, s, pa);
      data := data[pa := data[pte.ppn]];
      pt.SetPte(root, vpn, t, pte.(w := true, cow := false, ppn := pa));
      SamePaths(old(pt.tables), pt.tables, root);
      var ok := kmem.Kfree(pte.ppn);
      SameTables(pt.flat, kmem.count, data, size, held, old(pt.tables), old(pt.sh), pt.tables);
    }

    /**
     kalloc, fill, mappages; the page goes back if the page tables cannot be extended. mappages panics if the page
     is mapped already, with the new page in hand.
     */
    method MapNewPage(root: nat, vpn: nat, perm: Pte, bytes: Bytes) returns (panic: bool, pa: nat)
      requires Valid() && pt.Root(root) && vpn < UTOP
      requires perm.v && !perm.cow && |bytes| == 4096
      modifies this`data, this`held, pt, kmem
      ensures panic <==> Slot(root, vpn) in old(pt.flat) && old(kmem.free) != []
      ensures |kmem.free| + 3 >= |old(kmem.free)|
      ensures !panic && pa == 0 ==> |kmem.free| < 1 + Need(pt.tables, root, vpn)
      ensures forall p :: p in old(kmem.count) ==> p in kmem.count && kmem.count[p] == old(kmem.count)[p]
      ensures !panic && pa == 0 <==> |old(kmem.free)| < 1 + Need(old(pt.tables), root, vpn)
      ensures panic ==> Need(old(pt.tables), root, vpn) == 0
      ensures pa != 0 ==> && |kmem.free| == |old(kmem.free)| - 1 - Need(old(pt.tables), root, vpn)
                          && MadeFrom(old(pt.tables), pt.tables, root, vpn, 0)
      ensures Valid() && RootsKept(old(pt.tables), old(pt.sh), pt.tables, pt.sh)
      ensures forall p :: p in old(kmem.count) && p in old(data) ==> p in data && data[p] == old(data)[p]
      ensures panic ==> pa == 0
      ensures !panic && pa == 0 ==> Abs(M()) == old(Abs(M())) && pt.flat == old(pt.flat) && held == old(held)
      ensures pa != 0 ==> && pa !in old(kmem.count) && pt.flat == old(pt.flat)[Slot(root, vpn) := perm.(ppn := pa)]
                          && data == old(data)[pa := bytes] && held == old(held) && Slot(root, vpn) !in old(pt.flat)
    {
      hide Kmem.Valid, UserOk, PageTables.Valid, IsRoot, Owned, Abs, Need, MadeFrom;
      HeldCounted(pt.flat, kmem.count, data, size, held, pt.tables, pt.sh);
      AbsNewPage(pt.flat, kmem.count, data, size, held, pt.tables, pt.sh, bytes);
      var mem := NewPage(bytes);
      if mem == 0 {
        SameAbs(M(), old(M()));
        return false, 0;
      }
      var r := MapHeld(root, vpn, perm.(ppn := mem));
      assert Dec(old(held)[mem := 1], mem) == old(held);
      if r.Mapped? { return false, mem; }
      if r.Remap? { return true, 0; }
      DropPage(mem);
      SameAbs(M(), Mem(Owned(old(pt.flat)), old(kmem.count), old(data)[mem := bytes], size));
      return false, 0;
    }

    /**
     vmfault: gives the page a private writable copy, a zeroed heap page or a page of a mapped file,
     and returns it, or 0. What programs see changes only when a file page appears. Panics exactly from MAXVA up;
     regions end below the trapframes, so no file is mapped there.
     */
    method Vmfault(root: nat, vpn: nat, read: bool, file: FilePage) returns (panic: bool, pa: nat)
      requires Valid() && root in size && |file.bytes| == 4096 && (vpn >= UTOP ==> file.NoFile?)
      modifies this`data, this`held, pt, kmem
      ensures panic <==> vpn >= MAX_VPN
      ensures |kmem.free| + 3 >= |old(kmem.free)|
      ensures Valid() && RootsKept(old(pt.tables), old(pt.sh), pt.tables, pt.sh) && held == old(held)
      ensures panic ==> pa == 0
      ensures !panic ==>
                (pa == 0 <==> || Refused(old(M()), Slot(root, vpn), read, file)
                              || |old(kmem.free)| < Pages(old(M()), old(pt.tables), Slot(root, vpn), read))
      ensures pa != 0 ==> Took(old(M()), old(pt.tables), |old(kmem.free)|, M(), pt.tables, |kmem.free|,
                               Slot(root, vpn), read)
      ensures !panic && pa == 0 ==> || Refused(M(), Slot(root, vpn), read, file)
                                    || |kmem.free| < Pages(M(), pt.tables, Slot(root, vpn), read)
      ensures pa == 0 ==> Abs(M()) == old(Abs(M())) && pt.flat == old(pt.flat)
      ensures KeptBut(old(pt.flat), pt.flat, Slot(root, vpn))
      ensures pa != 0 ==> && Slot(root, vpn) in pt.flat && pt.flat[Slot(root, vpn)].ppn == pa && vpn < UTOP
                          && (!read ==> pt.flat[Slot(root, vpn)].w)
                          && Abs(M()) == Faulted(old(M()), Slot(root, vpn), file, pa)
    {
      hide Kmem.Valid, UserOk, PageTables.Valid, IsRoot, Owned, Abs, Path, RootsKept, EagerNext, Need, Took;
      RootsSame(pt.tables, pt.sh);
      if vpn >= MAX_VPN { return true, 0; }   // walk
      panic := false;
      ghost var s := Slot(root, vpn);
      assert pt.Root(root) && size[root] <= UTOP by {
        OkParts(pt.flat, kmem.count, data, size, held, pt.tables, pt.sh, root);
      }
      OwnedAt(pt.flat, s);
      KernelPage(pt.flat, kmem.count, data, size, held, pt.tables, pt.sh, s);
      var t := pt.Walk(root, vpn, false);
      var pte := pt.GetPte(root, vpn, t);
      if pte.v {
        if !read && pte.cow {
          pa := BreakPage(root, vpn, t, pte);
          return;
        }
        return false, 0;
      }
      if vpn < size[root] {
        pa := MapLazyPage(root, vpn);
        return;
      }
      if file.NoFile? || (read && !file.r && !file.x) || (!read && !file.w) || !file.readOk { return false, 0; }
      pa := MapFilePage(root, vpn, file);
    }

    /** vmfault on a copy-on-write page: programs see no change. */
    method BreakPage(root: nat, vpn: nat, t: nat, pte: Pte) returns (pa: nat)
      requires Valid() && root in size && vpn < UTOP && t == Path(pt.tables, root, vpn, 0) != 0
      requires Slot(root, vpn) in pt.flat && pte == pt.flat[Slot(root, vpn)] && pte.cow
      modifies this`data, pt, kmem
      ensures |kmem.free| + 1 >= |old(kmem.free)|
      ensures pa == 0 <==> |old(kmem.free)| < Pages(old(M()), old(pt.tables), Slot(root, vpn), false)
      ensures pa == 0 ==> M() == old(M()) && kmem.free == []
      ensures pa != 0 ==> Took(old(M()), old(pt.tables), |old(kmem.free)|, M(), pt.tables, |kmem.free|,
                               Slot(root, vpn), false)
      ensures Valid() && RootsKept(old(pt.tables), old(pt.sh), pt.tables, pt.sh)
      ensures pt.flat == if pa == 0 then old(pt.flat) else old(pt.flat)[Slot(root, vpn) := Unshared(pte).(ppn := pa)]
      ensures Abs(M()) == old(Abs(M()))
    {
      hide Kmem.Valid, UserOk, PageTables.Valid, IsRoot, Owned, Abs, BreakCow, Path, MadeAll, Took;
      ghost var s := Slot(root, vpn);
      ghost var m, kern := M(), KernOf(held, pt.tables);
      OkParts(pt.flat, kmem.count, data, size, held, pt.tables, pt.sh, root);
      OwnedAt(pt.flat, s);
      pa := BreakSharing(root, vpn, t, pte);
      if pa != 0 {
        ghost var p :| Fresh(m, p) && M() == BreakCow(m, s, p);
        FaultAbs(m, kern, s, true, p);
        SlotFine(m, kern, s);
        BreakTook(m, old(pt.tables), |old(kmem.free)|, pt.tables, |kmem.free|, s, p);
      }
    }

    /** vmfault in the heap. */
    method MapLazyPage(root: nat, vpn: nat) returns (pa: nat)
      requires Valid() && root in size && vpn < size[root] && Slot(root, vpn) !in pt.flat
      modifies this`data, this`held, pt, kmem
      ensures |kmem.free| + 3 >= |old(kmem.free)|
      ensures pa == 0 <==> |old(kmem.free)| < 1 + Need(old(pt.tables), root, vpn)
      ensures pa == 0 ==> |kmem.free| < 1 + Need(pt.tables, root, vpn)
      ensures pa != 0 ==> forall read :: Took(old(M()), old(pt.tables), |old(kmem.free)|, M(), pt.tables, |kmem.free|,
                                              Slot(root, vpn), read)
      ensures Valid() && RootsKept(old(pt.tables), old(pt.sh), pt.tables, pt.sh) && held == old(held)
      ensures pt.flat == if pa == 0 then old(pt.flat) else old(pt.flat)[Slot(root, vpn) := LazyPte(pa)]
      ensures Abs(M()) == old(Abs(M()))
    {
      hide Kmem.Valid, UserOk, PageTables.Valid, IsRoot, Owned, Abs, Need, MadeFrom;
      ghost var s := Slot(root, vpn);
      ghost var m, kern := M(), KernOf(held, pt.tables);
      OkParts(pt.flat, kmem.count, data, size, held, pt.tables, pt.sh, root);
      OwnedAt(pt.flat, s);
      var panic;
      panic, pa := MapNewPage(root, vpn, LazyPte0(), ZeroPage());
      if pa != 0 {
        OwnedSet(old(pt.flat), s, LazyPte(pa));
        FaultAbs(m, kern, s, true, pa);
        SameAbs(M(), Next(m, Fault(s, true, pa)));
        NewTook(m, old(pt.tables), |old(kmem.free)|, M(), pt.tables, |kmem.free|, s);
      }
    }

    /** vmfault in a mapped file. */
    method MapFilePage(root: nat, vpn: nat, file: FilePage) returns (pa: nat)
      requires Valid() && root in size && vpn < UTOP && |file.bytes| == 4096
      requires file.File? && !Visible(M(), Slot(root, vpn)) && Slot(root, vpn) !in pt.flat
      modifies this`data, this`held, pt, kmem
      ensures |kmem.free| + 3 >= |old(kmem.free)|
      ensures pa == 0 <==> |old(kmem.free)| < 1 + Need(old(pt.tables), root, vpn)
      ensures pa == 0 ==> |kmem.free| < 1 + Need(pt.tables, root, vpn)
      ensures pa != 0 ==> forall read :: Took(old(M()), old(pt.tables), |old(kmem.free)|, M(), pt.tables, |kmem.free|,
                                              Slot(root, vpn), read)
      ensures Valid() && RootsKept(old(pt.tables), old(pt.sh), pt.tables, pt.sh) && held == old(held)
      ensures pa == 0 ==> Abs(M()) == old(Abs(M())) && pt.flat == old(pt.flat)
      ensures pa != 0 ==> && pt.flat == old(pt.flat)[Slot(root, vpn) := FilePte(file, pa)]
                          && Abs(M()) == EagerNext(old(Abs(M())),
                                                   FileFault(Slot(root, vpn), FilePte(file, pa), file.bytes))
    {
      hide Kmem.Valid, UserOk, PageTables.Valid, IsRoot, Owned, Abs, Need, MadeFrom;
      ghost var s := Slot(root, vpn);
      ghost var m, kern := M(), KernOf(held, pt.tables);
      assert pt.Root(root) && Inv(m, kern) by {
        OkParts(pt.flat, kmem.count, data, size, held, pt.tables, pt.sh, root);
      }
      var panic;
      panic, pa := MapNewPage(root, vpn, FilePte(file, 0), file.bytes);
      if pa != 0 {
        OwnedSet(old(pt.flat), s, FilePte(file, pa));
        FileFaultAbs(m, kern, s, FilePte(file, pa), file.bytes);
        SameAbs(M(), Next(m, FileFault(s, FilePte(file, pa), file.bytes)));
        OwnedAt(old(pt.flat), s);
        NewTook(m, old(pt.tables), |old(kmem.free)|, M(), pt.tables, |kmem.free|, s);
      }
    }

    /** The memory part of kfork: afterwards the child sees what the parent sees, or nothing has changed. */
    method ForkMemory(from: nat, to: nat) returns (ok: bool)
      requires Valid() && from in size && to !in size && pt.Root(to)
      requires forall s :: s in pt.flat && s.root == to ==> s.vpn >= UTOP
      modifies this`size, pt, kmem
      ensures Valid() && RootsKept(old(pt.tables), old(pt.sh), pt.tables, pt.sh)
      ensures !ok <==>
                |old(kmem.free)| < |Missing(old(pt.tables), to, Those(old(pt.flat), from, 0, old(size)[from], true))|
      ensures Abs(M()) == if ok then EagerNext(old(Abs(M())), Fork(from, to)) else old(Abs(M()))
    {
      hide Kmem.Valid, UserOk, PageTables.Valid, IsRoot, Abs, Mark, UnmapRange, ShareUpTo, Missing, Those;
      ghost var m := M();
      OkParts(pt.flat, kmem.count, data, size, held, pt.tables, pt.sh, from);
      ghost var k;
      ok, k := Uvmcopy(from, to, size[from]);
      if ok {
        ForkAbs(m, from, to);
        Resize(to, size[from]);
        SameAbs(M(), Next(m, Fork(from, to)));
      } else {
        ForkFailsAbs(m, from, to, k);
        SameAbs(M(), Next(m, ForkFails(from, to, k)));
      }
    }

    /** update_sz, or the size a child starts with. */
    method Resize(root: nat, n: nat)
      requires Valid() && pt.Root(root) && n <= UTOP
      modifies this`size
      ensures Valid() && size == old(size)[root := n]
    {
      ResizeOk(pt.flat, kmem.count, data, size, held, pt.tables, pt.sh, root, n);
      size := size[root := n];
    }

    /** sys_sbrk, lazily: the address space grows by zeroes. */
    method GrowLazily(root: nat, n: nat) returns (ok: bool)
      requires Valid() && root in size && size[root] <= n
      modifies this`size
      ensures ok <==> n <= UTOP
      ensures Valid() && size == if ok then old(size)[root := n] else old(size)
      ensures Abs(M()) == if ok then EagerNext(old(Abs(M())), Grow(root, n)) else old(Abs(M()))
    {
      hide UserOk, Abs, IsRoot;
      if n > UTOP { return false; }
      ok := true;
      OkParts(pt.flat, kmem.count, data, size, held, pt.tables, pt.sh, root);
      GrowAbs(M(), root, n);
      Resize(root, n);
    }

    /** growproc with a negative argument: uvmdealloc. */
    method ShrinkTo(root: nat, n: nat)
      requires Valid() && root in size && n <= size[root]
      modifies this`size, pt, kmem
      ensures Valid() && RootsKept(old(pt.tables), old(pt.sh), pt.tables, pt.sh)
      ensures Abs(M()) == EagerNext(old(Abs(M())), Shrink(root, n))
    {
      hide Kmem.Valid, UserOk, PageTables.Valid, IsRoot, Abs, UnmapRange;
      ghost var m := M();
      OkParts(pt.flat, kmem.count, data, size, held, pt.tables, pt.sh, root);
      ShrinkAbs(m, root, n);
      Uvmunmap(root, n, size[root] - n);
      Resize(root, n);
      SameAbs(M(), Next(m, Shrink(root, n)));
    }

    /**
     growproc with a positive argument: uvmalloc maps zeroed pages, all of them or none. It does not look at the
     mapped regions: a page that is mapped already makes mappages panic.
     */
    method GrowEagerly(root: nat, n: nat) returns (r: GrowResult)
      requires Valid() && root in size && size[root] <= n
      modifies this, pt, kmem
      ensures r.TooBig? <==> n > UTOP
      ensures n <= UTOP ==>
                (r.OutOfMemory? <==> |old(kmem.free)| < Wanted(old(pt.tables), old(pt.flat), root, old(size)[root], n))
      ensures r.RemapPanic? <==> && n <= UTOP && Stop(old(pt.flat), root, old(size)[root], n) < n
                                 && Wanted(old(pt.tables), old(pt.flat), root, old(size)[root], n) <= |old(kmem.free)|
      ensures Valid() && RootsKept(old(pt.tables), old(pt.sh), pt.tables, pt.sh)
      ensures !r.RemapPanic? ==> held == old(held)
      ensures r.Grown? ==> Abs(M()) == EagerNext(old(Abs(M())), Grow(root, n))
      ensures r.OutOfMemory? || r.TooBig? ==> Abs(M()) == old(Abs(M()))
    {
      hide Kmem.Valid, UserOk, PageTables.Valid, IsRoot, Abs, UnmapRange, Owned, GrownTo, Backed, EagerNext;
      hide Spent, Wanted, Stop, Need, MadeFrom;
      if n > UTOP { return TooBig; }
      ghost var m, lo, free := M(), size[root], |kmem.free|;
      OkParts(pt.flat, kmem.count, data, size, held, pt.tables, pt.sh, root);
      MappedCounted(pt.flat, kmem.count, data, size, held, pt.tables, pt.sh);
      OwnedPart(pt.flat);
      GrownNone(m, root);
      SpentNone(pt.tables, pt.flat, root, lo, free);
      for a := size[root] to n
        invariant Valid() && RootsKept(old(pt.tables), old(pt.sh), pt.tables, pt.sh) && held == old(held)
        invariant size == old(size) && pt.Root(root)
        invariant GrownTo(m, root, a, M())
        invariant Spent(old(pt.tables), old(pt.flat), root, lo, a, free, pt.tables, |kmem.free|)
        invariant forall v: nat :: a <= v < n ==> (Slot(root, v) in pt.flat <==> Slot(root, v) in old(pt.flat))
      {
        SpentMisses(old(pt.tables), old(pt.flat), root, lo, a, free, pt.tables, |kmem.free|, m.flat);
        pt.MappedNeed(root, a);
        SpentNext(old(pt.tables), old(pt.flat), root, lo, a, n, free, pt.tables, |kmem.free|);
        ghost var was, left := pt.tables, |kmem.free|;
        r := GrowOne(root, a, m);
        if !r.Grown? { return; }
        SpentMore(old(pt.tables), old(pt.flat), root, lo, a, free, was, left, pt.tables);
      }
      SpentAll(old(pt.tables), old(pt.flat), root, lo, n, free, pt.tables, |kmem.free|);
      GrownAbs(m, root, n, M());
      Resize(root, n);
      r := Grown;
    }

    /** One iteration of uvmalloc; out of memory it takes back what the others have mapped. */
    method GrowOne(root: nat, a: nat, ghost m: Mem) returns (r: GrowResult)
      requires Valid() && root in size && m.size == size && size[root] <= a < UTOP && GrownTo(m, root, a, M())
      requires forall s :: s in m.flat ==> !(s.root == root && m.size[root] <= s.vpn < a)
      modifies this`data, this`held, pt, kmem
      ensures !r.TooBig? && (r.RemapPanic? <==> Slot(root, a) in old(pt.flat) && old(kmem.free) != [])
      ensures r.OutOfMemory? <==> |old(kmem.free)| < 1 + Need(old(pt.tables), root, a)
      ensures r.RemapPanic? ==> Need(old(pt.tables), root, a) == 0
      ensures r.Grown? ==> && |kmem.free| == |old(kmem.free)| - 1 - Need(old(pt.tables), root, a)
                           && MadeFrom(old(pt.tables), pt.tables, root, a, 0)
      ensures Valid() && RootsKept(old(pt.tables), old(pt.sh), pt.tables, pt.sh)
      ensures !r.RemapPanic? ==> held == old(held)
      ensures r.Grown? ==> && GrownTo(m, root, a + 1, M()) && Slot(root, a) !in old(pt.flat)
                           && pt.flat.Keys == old(pt.flat).Keys + {Slot(root, a)}
      ensures r.OutOfMemory? ==> Abs(M()) == Abs(m)
    {
      hide Kmem.Valid, UserOk, PageTables.Valid, IsRoot, Abs, Owned, GrownTo, Backed, Need, MadeFrom;
      ghost var was, flat := M(), pt.flat;
      MappedCounted(pt.flat, kmem.count, data, size, held, pt.tables, pt.sh);
      OkParts(pt.flat, kmem.count, data, size, held, pt.tables, pt.sh, root);
      OwnedAt(pt.flat, Slot(root, a));
      var panic, pa := MapNewPage(root, a, LazyPte0(), ZeroPage());
      if panic { return RemapPanic; }
      OwnedSet(flat, Slot(root, a), LazyPte(pa));
      if pa == 0 {
        GrownSame(m, root, a, was, M());
        Ungrow(root, a, m);
        return OutOfMemory;
      }
      GrownMore(m, root, a, was, M(), pa);
      r := Grown;
    }

    /** uvmalloc out of memory: uvmdealloc takes back what it mapped. */
    method Ungrow(root: nat, a: nat, ghost m: Mem)
      requires Valid() && root in size && size[root] <= a <= UTOP && m.size == size && GrownTo(m, root, a, M())
      requires forall s :: s in m.flat ==> !(s.root == root && m.size[root] <= s.vpn < a)
      modifies pt, kmem
      ensures Valid() && RootsKept(old(pt.tables), old(pt.sh), pt.tables, pt.sh)
      ensures Abs(M()) == Abs(m)
    {
      hide Kmem.Valid, UserOk, PageTables.Valid, IsRoot, Abs, UnmapRange, Owned, GrownTo;
      OkParts(pt.flat, kmem.count, data, size, held, pt.tables, pt.sh, root);
      GrownUndo(m, root, a, M());
      Uvmunmap(root, size[root], a - size[root]);
    }

    /** uvmfree: the address space and its page tables are gone, and so is what only it mapped. */
    method Uvmfree(root: nat)
      requires Valid() && root in size
      requires forall s :: s in pt.flat && s.root == root ==> s.vpn < size[root]
      modifies this`size, pt, kmem
      ensures Valid() && !pt.Root(root)
      ensures Abs(M()) == Without(old(Abs(M())), root)
    {
      hide Kmem.Valid, UserOk, PageTables.Valid, IsRoot, Abs, UnmapRange, Owned, Subtree;
      ghost var m := M();
      OkParts(pt.flat, kmem.count, data, size, held, pt.tables, pt.sh, root);
      OwnedPart(pt.flat);
      Uvmunmap(root, 0, size[root]);
      ghost var flat, count, tables := pt.flat, kmem.count, pt.tables;
      FreeAbs(m, root);
      pt.FreeRoot(root);
      FreeTablesOk(flat, count, data, size, held, tables, pt.sh, root, pt.tables);
      size := size - {root};
      SameAbs(M(), UnmapRange(m, root, 0, m.size[root]).(size := size));
    }

    /** memmove into a page that is mapped writable. */
    method Poke(root: nat, vpn: nat, pa: nat, off: nat, chunk: Bytes)
      requires Valid() && vpn < UTOP && Slot(root, vpn) in pt.flat && pt.flat[Slot(root, vpn)].w
      requires pa == pt.flat[Slot(root, vpn)].ppn && off + |chunk| <= 4096
      modifies this`data
      ensures Valid() && Slot(root, vpn) in old(Abs(M())).pages
      ensures Abs(M()) == Stored(old(Abs(M())), Slot(root, vpn), off, chunk)
    {
      hide Kmem.Valid, PageTables.Valid, IsRoot, Abs;
      StoreOk(pt.flat, kmem.count, data, size, held, pt.tables, pt.sh, Slot(root, vpn), off, chunk);
      hide UserOk;
      data := data[pa := Splice(data[pa], off, chunk)];
    }

    lemma NonNull(s: Slot)
      requires Valid()
      ensures s in pt.flat && s.vpn < UTOP ==> pt.flat[s].ppn != 0
    {
      hide UserOk, Owned, Kmem.Valid;
      MappedCounted(pt.flat, kmem.count, data, size, held, pt.tables, pt.sh);
      OwnedAt(pt.flat, s);
      if s in pt.flat && s.vpn < UTOP { kmem.Managed(pt.flat[s].ppn); }
    }

    /** walkaddr: the page, if it is mapped for the program; 0 from MAXVA up. */
    method Walkaddr(root: nat, vpn: nat) returns (pa: nat)
      requires Valid() && root in size
      modifies pt, kmem
      ensures Valid() && pt.flat == old(pt.flat) && pt.tables == old(pt.tables) && pt.sh == old(pt.sh)
      ensures kmem.count == old(kmem.count) && kmem.free == old(kmem.free)
      ensures pa != 0 <==> vpn < UTOP && Slot(root, vpn) in pt.flat && pt.flat[Slot(root, vpn)].u
      ensures pa != 0 ==> pa == pt.flat[Slot(root, vpn)].ppn
    {
      hide Kmem.Valid, UserOk, PageTables.Valid, IsRoot, Path, Owned;
      if vpn >= MAX_VPN { return 0; }
      ghost var s := Slot(root, vpn);
      assert pt.Root(root) by { OkParts(pt.flat, kmem.count, data, size, held, pt.tables, pt.sh, root); }
      KernelPage(pt.flat, kmem.count, data, size, held, pt.tables, pt.sh, s);
      NonNull(s);
      var t := pt.Walk(root, vpn, false);
      var pte := pt.GetPte(root, vpn, t);
      pa := if pte.v && pte.u then pte.ppn else 0;
    }

    /** copyout's look at PTE_W. */
    method IsWritable(root: nat, vpn: nat) returns (w: bool)
      requires Valid() && root in size && vpn < UTOP && Slot(root, vpn) in pt.flat
      modifies pt, kmem
      ensures Valid() && pt.flat == old(pt.flat) && pt.tables == old(pt.tables) && pt.sh == old(pt.sh)
      ensures kmem.count == old(kmem.count) && kmem.free == old(kmem.free)
      ensures w == pt.flat[Slot(root, vpn)].w
    {
      hide Kmem.Valid, UserOk, PageTables.Valid, IsRoot, Path, Owned;
      assert pt.Root(root) by { OkParts(pt.flat, kmem.count, data, size, held, pt.tables, pt.sh, root); }
      var t := pt.Walk(root, vpn, false);
      var pte := pt.GetPte(root, vpn, t);
      w := pte.w;
    }

    /** One iteration of copyout; `file` is what is mapped at the page. Fails as NoAccess says, or out of memory. */
    method StoreChunk(root: nat, vpn: nat, off: nat, chunk: Bytes, file: FilePage) returns (ok: bool)
      requires Valid() && root in size && off + |chunk| <= 4096 && |file.bytes| == 4096
      requires vpn >= UTOP ==> file.NoFile?
      modifies this`data, this`held, pt, kmem
      ensures !ok <==> !Open(old(M()), old(pt.tables), |old(kmem.free)|, Slot(root, vpn), false, file)
      ensures ok ==> Took(old(M()), old(pt.tables), |old(kmem.free)|, M(), pt.tables, |kmem.free|,
                          Slot(root, vpn), false)
      ensures !ok ==> !Open(M(), pt.tables, |kmem.free|, Slot(root, vpn), false, file)
      ensures !ok ==> pt.flat == old(pt.flat)
      ensures KeptBut(old(pt.flat), pt.flat, Slot(root, vpn))
      ensures Valid() && RootsKept(old(pt.tables), old(pt.sh), pt.tables, pt.sh) && held == old(held)
      ensures Abs(M()) == if ok then Stored(Opened(old(Abs(M())), Slot(root, vpn), file), Slot(root, vpn), off, chunk)
                          else old(Abs(M()))
    {
      hide Kmem.Valid, UserOk, PageTables.Valid, IsRoot, Abs, Path, Owned, Took, Need;
      if vpn >= MAX_VPN { return false; }
      ghost var s := Slot(root, vpn);
      OpenedIs(M(), s, file);
      OwnedAt(pt.flat, s);
      var pa0 := Walkaddr(root, vpn);
      SameAbs(M(), old(M()));
      var writable := false;
      if pa0 != 0 { writable := IsWritable(root, vpn); }
      if !writable {
        var panic;
        panic, pa0 := Vmfault(root, vpn, false, file);
        if pa0 == 0 { return false; }
      } else {
        WritableAlone(pt.flat, kmem.count, data, size, held, pt.tables, pt.sh, s);
        StayTook(old(M()), pt.tables, |kmem.free|, M(), s, false);
      }
      ghost var there := M();
      Poke(root, vpn, pa0, off, chunk);
      TookSame(old(M()), old(pt.tables), |old(kmem.free)|, there, M(), pt.tables, |kmem.free|, s, false);
      ok := true;
    }

    /** copyout: all of `src` written at `dst`, or what goes to the first `j` pages. */
    method Copyout(root: nat, dst: nat, src: Bytes, files: map<nat, FilePage>) returns (ok: bool, ghost j: nat)
      requires Valid() && root in size && FilesOk(files)
      modifies this`data, this`held, pt, kmem
      ensures Valid() && held == old(held)
      ensures Abs(M()) == CopyTo(old(Abs(M())), root, dst, src, files, j)
      ensures if ok then Cut(dst, |src|, j) == |src| else Cut(dst, |src|, j) < |src|
      ensures !ok ==> !Open(M(), pt.tables, |kmem.free|, Slot(root, dst / 4096 + j), false,
                            FileAt(files, dst / 4096 + j))
      ensures !ok <==> Fails(old(M()), old(pt.tables), |old(kmem.free)|, root, dst, |src|, false, files)
    {
      hide Kmem.Valid, UserOk, PageTables.Valid, IsRoot, Abs, Stored, Opened, Owned, KeptBut, CopyTo, Cut;
      hide Going, Took, Open, Fails, Inv, RootsKept, FilesOk, FileAt;
      var va, i := dst, 0;
      j := 0;
      ghost var m0, t0, free0, e0 := M(), pt.tables, |kmem.free|, Abs(M());
      GoingNone(m0, t0, free0, root, dst, false, files);
      CopyToNone(e0, root, dst, src, files);
      while i < |src|
        invariant Valid() && held == old(held) && root in size && i == Cut(dst, |src|, j)
        invariant Going(m0, t0, free0, M(), pt.tables, |kmem.free|, root, dst, j, false, files)
        invariant i < |src| ==> va == dst + i && va / 4096 == dst / 4096 + j && (j > 0 ==> va % 4096 == 0)
        invariant Abs(M()) == CopyTo(e0, root, dst, src, files, j)
        decreases |src| - i
      {
        var vpn, off := va / 4096, va % 4096;
        var n := if 4096 - off > |src| - i then |src| - i else 4096 - off;
        CutNext(dst, |src|, j, i, n);
        CopyToNext(e0, root, dst, src, files, j, i, n, off);
        GoingEnds(m0, t0, free0, M(), pt.tables, |kmem.free|, root, dst, |src|, j, false, files);
        ghost var flat, m, t, free, kern := pt.flat, M(), pt.tables, |kmem.free|, KernOf(held, pt.tables);
        OkParts(pt.flat, kmem.count, data, size, held, pt.tables, pt.sh, root);
        FileFine(files, vpn);
        ok := StoreChunk(root, vpn, off, src[i..i + n], FileAt(files, vpn));
        if !ok { return; }
        GoingMore(m0, t0, free0, flat, m, t, free, pt.flat, M(), pt.tables, |kmem.free|, root, dst, j, false, files,
                  kern);
        va, i, j := va + n, i + n, j + 1;
      }
      GoingEnds(m0, t0, free0, M(), pt.tables, |kmem.free|, root, dst, |src|, j, false, files);
      ok := true;
    }

    /** One iteration of copyin, which has no test for MAXVA of its own. */
    method LoadChunk(root: nat, vpn: nat, off: nat, n: nat, file: FilePage)
      returns (panic: bool, ok: bool, chunk: Bytes)
      requires Valid() && root in size && off + n <= 4096 && |file.bytes| == 4096 && (vpn >= UTOP ==> file.NoFile?)
      modifies this`data, this`held, pt, kmem
      ensures panic <==> vpn >= MAX_VPN
      ensures panic ==> !ok
      ensures !panic ==> (!ok <==> !Open(old(M()), old(pt.tables), |old(kmem.free)|, Slot(root, vpn), true, file))
      ensures ok ==> Took(old(M()), old(pt.tables), |old(kmem.free)|, M(), pt.tables, |kmem.free|,
                          Slot(root, vpn), true)
      ensures !ok ==> pt.flat == old(pt.flat)
      ensures KeptBut(old(pt.flat), pt.flat, Slot(root, vpn))
      ensures Valid() && RootsKept(old(pt.tables), old(pt.sh), pt.tables, pt.sh) && held == old(held)
      ensures Abs(M()) == if ok then Opened(old(Abs(M())), Slot(root, vpn), file) else old(Abs(M()))
      ensures ok ==> && vpn < UTOP && Slot(root, vpn) in Abs(M()).pages
                     && |Abs(M()).pages[Slot(root, vpn)].bytes| == 4096
                     && chunk == Abs(M()).pages[Slot(root, vpn)].bytes[off..off + n]
    {
      hide Kmem.Valid, UserOk, PageTables.Valid, IsRoot, Abs, Path, Owned, Took, Need;
      ghost var s := Slot(root, vpn);
      OpenedIs(M(), s, file);
      OwnedAt(pt.flat, s);
      panic := false;
      var pa0 := Walkaddr(root, vpn);
      SameAbs(M(), old(M()));
      if pa0 == 0 {
        panic, pa0 := Vmfault(root, vpn, true, file);
        if pa0 == 0 { return panic, false, []; }
      } else {
        StayTook(old(M()), pt.tables, |kmem.free|, M(), s, true);
      }
      PeekOk(pt.flat, kmem.count, data, size, held, pt.tables, pt.sh, s);
      chunk := data[pa0][off..off + n];
      ok := true;
    }

    /**
     copyin: the bytes programs see at `src`, or failure; nothing they see changes but file pages that appear.
     Panics exactly if it starts at MAXVA or above.
     */
    method Copyin(root: nat, src: nat, len: nat, files: map<nat, FilePage>) returns (panic: bool, ok: bool, got: Bytes)
      requires Valid() && root in size && FilesOk(files)
      modifies this`data, this`held, pt, kmem
      ensures panic <==> len > 0 && src / 4096 >= MAX_VPN
      ensures Valid() && held == old(held)
      ensures Extends(old(Abs(M())), Abs(M()), root)
      ensures ok ==> !panic && |got| == len && Reads(Abs(M()), root, src, got)
      ensures !panic ==>
                (!ok <==> Fails(old(M()), old(pt.tables), |old(kmem.free)|, root, src, len, true, files))
    {
      hide Kmem.Valid, UserOk, PageTables.Valid, IsRoot, Abs, Opened, Extends, Reads, Owned, KeptBut, Cut;
      hide Going, Took, Open, Fails, Inv, RootsKept, FilesOk, FileAt;
      var va := src;
      ghost var j: nat := 0;
      panic, ok, got := false, true, [];
      ghost var m0, t0, free0, e0 := M(), pt.tables, |kmem.free|, Abs(M());
      ExtendsSame(e0, root);
      ReadsNone(e0, root, src);
      CutNone(src, len);
      GoingNone(m0, t0, free0, root, src, true, files);
      while |got| < len
        invariant Valid() && held == old(held) && root in size
        invariant !panic && ok && |got| == Cut(src, len, j) && va == src + |got| && |got| <= len
        invariant |got| < len ==> va / 4096 == src / 4096 + j && (j > 0 ==> va % 4096 == 0)
        invariant j > 0 ==> src / 4096 + j <= UTOP
        invariant Going(m0, t0, free0, M(), pt.tables, |kmem.free|, root, src, j, true, files)
        invariant Extends(e0, Abs(M()), root) && Reads(Abs(M()), root, src, got)
        decreases len - |got|
      {
        var vpn, off := va / 4096, va % 4096;
        var n := if 4096 - off > len - |got| then len - |got| else 4096 - off;
        CutNext(src, len, j, |got|, n);
        GoingEnds(m0, t0, free0, M(), pt.tables, |kmem.free|, root, src, len, j, true, files);
        ghost var e, flat, m, t, free, kern := Abs(M()), pt.flat, M(), pt.tables, |kmem.free|, KernOf(held, pt.tables);
        OkParts(pt.flat, kmem.count, data, size, held, pt.tables, pt.sh, root);
        FileFine(files, vpn);
        var chunk;
        panic, ok, chunk := LoadChunk(root, vpn, off, n, FileAt(files, vpn));
        if !ok { return; }
        GoingMore(m0, t0, free0, flat, m, t, free, pt.flat, M(), pt.tables, |kmem.free|, root, src, j, true, files,
                  kern);
        ExtendsMore(e0, e, root, vpn, FileAt(files, vpn));
        ReadsMore(e, Abs(M()), root, src, got, vpn, FileAt(files, vpn), chunk);
        got, va, j := got + chunk, va + n, j + 1;
      }
      GoingEnds(m0, t0, free0, M(), pt.tables, |kmem.free|, root, src, len, j, true, files);
    }

    /** krefinc */
    method Retain(p: nat)
      requires pt.kmem == kmem && pt.Valid() && p in kmem.count && p !in pt.tables
      modifies kmem
      ensures pt.Valid() && kmem.count == Inc(old(kmem.count), p) && kmem.free == old(kmem.free)
    {
      hide Kmem.Valid, Trees, Flattens;
      var ok := kmem.Krefinc(p);
    }
  }

  /** The entries after one iteration of uvmcopy, which maps the page in the child only if `ok`. */
  ghost function SharedFlat(flat: map<Slot, Pte>, from: nat, to: nat, vpn: nat, ok: bool): (r: map<Slot, Pte>) {
    if Slot(from, vpn) !in flat then flat else
    var pte := Shared(flat[Slot(from, vpn)]);
    var marked := flat[Slot(from, vpn) := pte];
    if ok then marked[Slot(to, vpn) := pte] else marked
  }

  lemma SharedFlatView(m: Mem, flat: map<Slot, Pte>, from: nat, to: nat, vpn: nat, ok: bool)
    requires m.flat == Owned(flat) && vpn < UTOP && Slot(to, vpn) !in flat && from != to
    ensures Owned(SharedFlat(flat, from, to, vpn, ok)) ==
              if ok then Share(m, from, to, vpn).flat else Mark(m, Slot(from, vpn)).flat
    ensures forall s :: s in SharedFlat(flat, from, to, vpn, ok) ==> s in flat || s == Slot(to, vpn)
    ensures forall s :: s in flat ==> s in SharedFlat(flat, from, to, vpn, ok)
    ensures Share(m, from, to, vpn).data == m.data == Mark(m, Slot(from, vpn)).data
    ensures Share(m, from, to, vpn).size == m.size == Mark(m, Slot(from, vpn)).size
  {
  }

  lemma ShareView(a: Mem, b: Mem, from: nat, to: nat, vpn: nat)
    requires SameView(a, b)
    ensures SameView(Share(a, from, to, vpn), Share(b, from, to, vpn))
  {
  }

  lemma MarkSame(a: Mem, b: Mem, s: Slot)
    requires SameView(a, b)
    ensures SameView(Mark(a, s), Mark(b, s))
  {
  }

  lemma {:induction false} UnmapRangeView(a: Mem, b: Mem, root: nat, lo: nat, hi: nat)
    requires SameView(a, b)
    ensures SameView(UnmapRange(a, root, lo, hi), UnmapRange(b, root, lo, hi))
    decreases hi
  {
    if lo < hi { UnmapRangeView(a, b, root, lo, hi - 1); }
  }

  /** Some page that is not in use. */
  ghost function Unused(count: map<nat, nat>): (p: nat)
    ensures p !in count
  {
    Above(count.Keys)
  }

  ghost function Above(keys: set<nat>): (p: nat)
    ensures forall q :: q in keys ==> q < p
  {
    if keys == {} then 0 else
    var k :| k in keys;
    var p := Above(keys - {k});
    assert forall q :: q in keys ==> q == k || q in keys - {k};
    if p > k then p else k + 1
  }

  lemma UnmapNone(m: Mem, flat: map<Slot, Pte>, s: Slot)
    requires m.flat == Owned(flat) && s !in flat
    ensures Unmap(m, s) == m && flat - {s} == flat
  {
  }

  // ----- where the code panics

  /** copyin at MAXVA panics; copyout to the same address fails. */
  method CopyAtMaxva(vm: Vm, root: nat) returns (load: bool, stored: bool)
    requires vm.Valid() && root in vm.size
    modifies vm, vm.pt, vm.kmem
    ensures load && !stored
  {
    hide Vm.Valid, Abs, Extends, Reads, CopyTo, Refused;
    var ok, got;
    ghost var j;
    load, ok, got := vm.Copyin(root, MAX_VPN * 4096, 1, map[]);
    assert NoAccess(vm.M(), Slot(root, MAX_VPN), false, FileAt(map[], MAX_VPN));
    stored, j := vm.Copyout(root, MAX_VPN * 4096, [0], map[]);
  }

  /** A region begins where the heap ends; its first page is touched; then the heap grows eagerly. */
  method GrowOntoRegion() returns (r: GrowResult)
    ensures r.RemapPanic?
  {
    hide Vm.Valid, Kmem.Valid, PageTables.Valid, Abs, EagerNext, RootsKept, Faulted;
    var kmem := new Kmem(1, 1, 40);
    var pt := new PageTables(kmem);
    var vm := new Vm(pt);
    var root := vm.NewSpace();
    var ok := vm.GrowLazily(root, 1);
    var panic, pa := vm.Vmfault(root, 1, true, File(true, false, false, ZeroPage(), true));
    r := vm.GrowEagerly(root, 2);
  }
}
