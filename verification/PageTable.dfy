/**
 The three-level page tables of xv6-riscv/kernel/vm.c (Sv39, section 4.4 of the RISC-V
 Privileged Architecture) and the flat map from virtual pages to entries they stand for.

 A page-table page is a sequence of 512 entries. Ghost state records for every table its
 level and the one entry that points to it, which makes each address space a tree.
 */
module PageTable {
  import opened Cow
  import opened Kalloc
  import Counting

  type Tables = map<nat, seq<Pte>>

  datatype Pos = Pos(table: nat, idx: nat)

  datatype Shape = Shape(level: map<nat, nat>, parent: map<nat, Pos>)

  const VPNS: nat := 512 * 512 * 512
  const MAX_VPN: nat := 256 * 512 * 512   // MAXVA / PGSIZE

  function NullPte(): (pte: Pte) {
    Pte(false, 0, false, false, false, false, false)
  }

  /** PX(level, va) for the page number of va. */
  function Px(level: nat, vpn: nat): (i: nat)
    ensures i < 512
  {
    if level == 0 then vpn % 512 else if level == 1 then vpn / 512 % 512 else vpn / 262144 % 512
  }

  lemma PxInjective(a: nat, b: nat)
    requires a < VPNS && b < VPNS && Px(0, a) == Px(0, b) && Px(1, a) == Px(1, b) && Px(2, a) == Px(2, b)
    ensures a == b
  {
    assert a == a / 262144 * 262144 + a / 512 % 512 * 512 + a % 512;
    assert b == b / 262144 * 262144 + b / 512 % 512 * 512 + b % 512;
  }

  // ----- the shape of the trees

  /** A valid entry of an upper table points to the table below it, which knows the entry. */
  ghost predicate EntryOk(tables: Tables, sh: Shape, t: nat, i: nat) {
    t in tables && i < |tables[t]| && t in sh.level &&
    var e := tables[t][i];
    e.v ==> && !e.r && !e.w && !e.x
            && e.ppn in tables && e.ppn in sh.level && sh.level[e.ppn] + 1 == sh.level[t]
            && e.ppn in sh.parent && sh.parent[e.ppn] == Pos(t, i)
  }

  ghost predicate TableOk(tables: Tables, sh: Shape, t: nat) {
    && t in tables && t != 0 && |tables[t]| == 512
    && t in sh.level && sh.level[t] <= 2
    && (sh.level[t] > 0 ==> forall i: nat :: i < 512 ==> EntryOk(tables, sh, t, i))
    && (sh.level[t] == 2 ==> t !in sh.parent)
    && (sh.level[t] < 2 ==>
          && t in sh.parent
          && var up := sh.parent[t];
          && up.table in tables && up.table in sh.level && up.idx < |tables[up.table]|
          && sh.level[up.table] == sh.level[t] + 1
          && tables[up.table][up.idx].v && tables[up.table][up.idx].ppn == t)
  }

  ghost predicate Trees(tables: Tables, sh: Shape) {
    forall t :: t in tables ==> TableOk(tables, sh, t)
  }

  /** Page 0 is never a table. */
  lemma NoZero(tables: Tables, sh: Shape)
    requires Trees(tables, sh)
    ensures 0 !in tables
  {
    forall t | t in tables ensures t != 0 { assert TableOk(tables, sh, t); }
  }

  ghost predicate IsRoot(tables: Tables, sh: Shape, root: nat) {
    root in tables && root in sh.level && sh.level[root] == 2
  }

  ghost predicate RootsKept(tables: Tables, sh: Shape, tables': Tables, sh': Shape) {
    forall x :: IsRoot(tables, sh, x) ==> IsRoot(tables', sh', x)
  }

  // ----- looking up

  /** The table that entry `i` of `t` points to, 0 if none. */
  function Child(tables: Tables, t: nat, i: nat): (c: nat) {
    if t in tables && i < |tables[t]| && tables[t][i].v then tables[t][i].ppn else 0
  }

  /** The table of the given level on the way to `vpn`, 0 if there is none. */
  function Path(tables: Tables, root: nat, vpn: nat, level: nat): (t: nat)
    decreases 2 - level
  {
    if level >= 2 then root else
    Child(tables, Path(tables, root, vpn, level + 1), Px(level + 1, vpn))
  }

  /** The entry that walk finds. */
  function Lookup(tables: Tables, root: nat, vpn: nat): (pte: Pte) {
    var t := Path(tables, root, vpn, 0);
    if t in tables && |tables[t]| == 512 then tables[t][Px(0, vpn)] else NullPte()
  }

  lemma PathOk(tables: Tables, sh: Shape, root: nat, vpn: nat, level: nat)
    requires Trees(tables, sh) && IsRoot(tables, sh, root) && level <= 2
    ensures var t := Path(tables, root, vpn, level);
            t != 0 ==> && t in tables && t in sh.level && sh.level[t] == level
                       && (level < 2 ==> && t in sh.parent
                                         && sh.parent[t] == Pos(Path(tables, root, vpn, level + 1), Px(level + 1, vpn)))
    decreases 2 - level
  {
    if level < 2 {
      PathOk(tables, sh, root, vpn, level + 1);
      var t := Path(tables, root, vpn, level + 1);
      if t != 0 {
        assert TableOk(tables, sh, t);
        assert EntryOk(tables, sh, t, Px(level + 1, vpn));
      }
    } else {
      assert TableOk(tables, sh, root);
    }
  }

  /** Two virtual pages whose walks end in the same entry are the same page of the same address space. */
  lemma SlotInjective(tables: Tables, sh: Shape, a: Slot, b: Slot)
    requires Trees(tables, sh) && IsRoot(tables, sh, a.root) && IsRoot(tables, sh, b.root)
    requires a.vpn < VPNS && b.vpn < VPNS
    requires Path(tables, a.root, a.vpn, 0) == Path(tables, b.root, b.vpn, 0) != 0
    requires Px(0, a.vpn) == Px(0, b.vpn)
    ensures a == b
  {
    PathOk(tables, sh, a.root, a.vpn, 0);
    PathOk(tables, sh, b.root, b.vpn, 0);
    NoZero(tables, sh);
    PathOk(tables, sh, a.root, a.vpn, 1);
    PathOk(tables, sh, b.root, b.vpn, 1);
    PxInjective(a.vpn, b.vpn);
  }

  // ----- the flat map

  ghost predicate FlatAt(tables: Tables, sh: Shape, flat: map<Slot, Pte>, s: Slot) {
    && (s in flat <==> IsRoot(tables, sh, s.root) && s.vpn < VPNS && Lookup(tables, s.root, s.vpn).v)
    && (s in flat ==> flat[s] == Lookup(tables, s.root, s.vpn))
  }

  ghost predicate Flattens(tables: Tables, sh: Shape, flat: map<Slot, Pte>) {
    forall s :: FlatAt(tables, sh, flat, s)
  }

  // ----- writing a leaf entry

  function SetEntry(tables: Tables, t: nat, i: nat, pte: Pte): (r: Tables)
    requires t in tables && i < |tables[t]|
  {
    tables[t := tables[t][i := pte]]
  }

  ghost function SetFlat(flat: map<Slot, Pte>, s: Slot, pte: Pte): (r: map<Slot, Pte>) {
    if pte.v then flat[s := pte] else flat - {s}
  }

  lemma SetLeafTrees(tables: Tables, sh: Shape, t: nat, i: nat, pte: Pte)
    requires Trees(tables, sh) && t in tables && sh.level[t] == 0 && i < 512
    ensures |tables[t]| == 512 && Trees(SetEntry(tables, t, i, pte), sh)
  {
    assert TableOk(tables, sh, t);
    var now := SetEntry(tables, t, i, pte);
    forall x | x in now ensures TableOk(now, sh, x) {
      assert TableOk(tables, sh, x);
      if sh.level[x] > 0 {
        forall j: nat | j < 512 ensures EntryOk(now, sh, x, j) { assert EntryOk(tables, sh, x, j); }
      }
    }
  }

  lemma SetLeafPath(tables: Tables, sh: Shape, t: nat, i: nat, pte: Pte, root: nat, vpn: nat, level: nat)
    requires Trees(tables, sh) && t in tables && sh.level[t] == 0 && i < |tables[t]|
    requires IsRoot(tables, sh, root) && level <= 2
    ensures Path(SetEntry(tables, t, i, pte), root, vpn, level) == Path(tables, root, vpn, level)
    decreases 2 - level
  {
    if level < 2 {
      SetLeafPath(tables, sh, t, i, pte, root, vpn, level + 1);
      PathOk(tables, sh, root, vpn, level + 1);
    }
  }

  /** Writing the entry walk found for a page changes the flat map at that page and nowhere else. */
  lemma SetLeafFlat(tables: Tables, sh: Shape, flat: map<Slot, Pte>, s: Slot, pte: Pte)
    requires Trees(tables, sh) && Flattens(tables, sh, flat) && IsRoot(tables, sh, s.root) && s.vpn < VPNS
    requires Path(tables, s.root, s.vpn, 0) != 0
    ensures var t := Path(tables, s.root, s.vpn, 0);
            && t in tables && |tables[t]| == 512 && sh.level[t] == 0
            && Trees(SetEntry(tables, t, Px(0, s.vpn), pte), sh)
            && Flattens(SetEntry(tables, t, Px(0, s.vpn), pte), sh, SetFlat(flat, s, pte))
  {
    var t, i := Path(tables, s.root, s.vpn, 0), Px(0, s.vpn);
    PathOk(tables, sh, s.root, s.vpn, 0);
    SetLeafTrees(tables, sh, t, i, pte);
    var now := SetEntry(tables, t, i, pte);
    forall x ensures FlatAt(now, sh, SetFlat(flat, s, pte), x) {
      assert FlatAt(tables, sh, flat, x);
      if IsRoot(tables, sh, x.root) && x.vpn < VPNS {
        SetLeafPath(tables, sh, t, i, pte, x.root, x.vpn, 0);
        if Path(tables, x.root, x.vpn, 0) == t && Px(0, x.vpn) == i { SlotInjective(tables, sh, s, x); }
      }
    }
  }

  // ----- adding a table

  function ZeroTable(): (t: seq<Pte>)
    ensures |t| == 512 && forall i :: 0 <= i < 512 ==> t[i] == NullPte()
  {
    seq(512, _ => NullPte())
  }

  function PointerPte(p: nat): (pte: Pte) {
    Pte(true, p, false, false, false, false, false)
  }

  function AddTable(tables: Tables, t: nat, i: nat, p: nat): (r: Tables)
    requires t in tables && i < |tables[t]|
  {
    SetEntry(tables, t, i, PointerPte(p))[p := ZeroTable()]
  }

  ghost function AddShape(sh: Shape, t: nat, i: nat, p: nat): (r: Shape)
    requires t in sh.level && sh.level[t] > 0
  {
    Shape(sh.level[p := sh.level[t] - 1], sh.parent[p := Pos(t, i)])
  }

  /** Entry `i` of the upper table `t` is empty and `p` is a page that is no table yet. */
  ghost predicate CanAdd(tables: Tables, sh: Shape, t: nat, i: nat, p: nat) {
    && Trees(tables, sh) && t in tables && t in sh.level && sh.level[t] > 0
    && i < |tables[t]| && !tables[t][i].v && p !in tables && p != 0
  }

  lemma AddTableTrees(tables: Tables, sh: Shape, t: nat, i: nat, p: nat)
    requires CanAdd(tables, sh, t, i, p)
    ensures Trees(AddTable(tables, t, i, p), AddShape(sh, t, i, p))
  {
    var now, sh' := AddTable(tables, t, i, p), AddShape(sh, t, i, p);
    assert TableOk(tables, sh, t);
    forall x | x in now ensures TableOk(now, sh', x) {
      if x != p {
        assert TableOk(tables, sh, x);
        if sh.level[x] > 0 {
          forall j: nat | j < 512 ensures EntryOk(now, sh', x, j) { assert EntryOk(tables, sh, x, j); }
        }
      } else {
        forall j: nat | j < 512 ensures EntryOk(now, sh', p, j) { }
      }
    }
  }

  lemma AddTablePath(tables: Tables, sh: Shape, t: nat, i: nat, p: nat, root: nat, vpn: nat, level: nat)
    requires CanAdd(tables, sh, t, i, p) && IsRoot(tables, sh, root) && level <= 2
    ensures var now, was := Path(AddTable(tables, t, i, p), root, vpn, level), Path(tables, root, vpn, level);
            (was != 0 ==> now == was) && (was == 0 ==> now == 0 || now == p)
    decreases 2 - level
  {
    if level < 2 {
      AddTablePath(tables, sh, t, i, p, root, vpn, level + 1);
      PathOk(tables, sh, root, vpn, level + 1);
      NoZero(tables, sh);
      var was := Path(tables, root, vpn, level + 1);
      if was != 0 {
        assert TableOk(tables, sh, was);
        assert EntryOk(tables, sh, was, Px(level + 1, vpn));
      }
    } else {
      assert TableOk(tables, sh, root);
    }
  }

  lemma AddTableFlat(tables: Tables, sh: Shape, flat: map<Slot, Pte>, t: nat, i: nat, p: nat)
    requires CanAdd(tables, sh, t, i, p) && Flattens(tables, sh, flat)
    ensures Flattens(AddTable(tables, t, i, p), AddShape(sh, t, i, p), flat)
  {
    var now, sh' := AddTable(tables, t, i, p), AddShape(sh, t, i, p);
    forall x ensures FlatAt(now, sh', flat, x) {
      assert FlatAt(tables, sh, flat, x);
      assert IsRoot(now, sh', x.root) <==> IsRoot(tables, sh, x.root) by { assert TableOk(tables, sh, t); }
      if IsRoot(tables, sh, x.root) {
        AddTablePath(tables, sh, t, i, p, x.root, x.vpn, 0);
        PathOk(tables, sh, x.root, x.vpn, 0);
        NoZero(tables, sh);
      }
    }
  }

  /** uvmcreate: a new, empty address space. */
  lemma NewRoot(tables: Tables, sh: Shape, flat: map<Slot, Pte>, p: nat)
    requires Trees(tables, sh) && Flattens(tables, sh, flat) && p !in tables && p != 0
    ensures var now, sh' := tables[p := ZeroTable()], Shape(sh.level[p := 2], sh.parent - {p});
            Trees(now, sh') && Flattens(now, sh', flat) && IsRoot(now, sh', p)
  {
    var now, sh' := tables[p := ZeroTable()], Shape(sh.level[p := 2], sh.parent - {p});
    forall x | x in now ensures TableOk(now, sh', x) {
      if x != p {
        assert TableOk(tables, sh, x);
        if sh.level[x] > 0 {
          forall j: nat | j < 512 ensures EntryOk(now, sh', x, j) { assert EntryOk(tables, sh, x, j); }
        }
      } else {
        forall j: nat | j < 512 ensures EntryOk(now, sh', p, j) { }
      }
    }
    forall x ensures FlatAt(now, sh', flat, x) {
      assert FlatAt(tables, sh, flat, x);
      NoZero(tables, sh);
      if x.root == p {
        EmptyRoot(now, p, x.vpn);
      } else if IsRoot(tables, sh, x.root) {
        SamePath(tables, sh, p, x.root, x.vpn, 0);
        PathOk(tables, sh, x.root, x.vpn, 0);
      }
    }
  }

  lemma EmptyRoot(tables: Tables, p: nat, vpn: nat)
    requires p in tables && tables[p] == ZeroTable() && 0 !in tables
    ensures !Lookup(tables, p, vpn).v
  {
    assert Path(tables, p, vpn, 1) == 0;
    assert Path(tables, p, vpn, 0) == 0;
  }

  lemma SamePath(tables: Tables, sh: Shape, p: nat, root: nat, vpn: nat, level: nat)
    requires Trees(tables, sh) && IsRoot(tables, sh, root) && p !in tables && p != 0 && level <= 2
    ensures Path(tables[p := ZeroTable()], root, vpn, level) == Path(tables, root, vpn, level)
    decreases 2 - level
  {
    if level < 2 {
      SamePath(tables, sh, p, root, vpn, level + 1);
      PathOk(tables, sh, root, vpn, level + 1);
    }
  }

  // ----- which tables there are

  /** The part of an address space that one table of the level covers: pages with the same number share it. */
  function Area(level: nat, vpn: nat): (a: nat) {
    if level == 0 then vpn / 512 else vpn / 262144
  }

  ghost predicate Has(tables: Tables, root: nat, vpn: nat, level: nat) {
    Path(tables, root, vpn, level) != 0
  }

  /** How many tables walk has to make for a page. */
  ghost function Need(tables: Tables, root: nat, vpn: nat): (n: nat) {
    NeedFrom(tables, root, vpn, 0)
  }

  /** Those of the given level and above. */
  ghost function NeedFrom(tables: Tables, root: nat, vpn: nat, level: nat): (n: nat) {
    (if level <= 1 && !Has(tables, root, vpn, 1) then 1 else 0)
    + if level == 0 && !Has(tables, root, vpn, 0) then 1 else 0
  }

  /** The tables of the address space are as before, and there are those of the level and above for `vpn`. */
  ghost predicate MadeFrom(tables: Tables, tables': Tables, root: nat, vpn: nat, level: nat) {
    forall v: nat, k: nat :: v < VPNS && k <= 1 ==>
      (Has(tables', root, v, k) <==> Has(tables, root, v, k) || (level <= k && Area(k, v) == Area(k, vpn)))
  }

  lemma SameArea(tables: Tables, root: nat, v: nat, w: nat, level: nat)
    requires level <= 1 && Area(level, v) == Area(level, w)
    ensures Path(tables, root, v, level) == Path(tables, root, w, level)
  {
    assert v / 262144 == v / 512 / 512 && w / 262144 == w / 512 / 512;
    assert Path(tables, root, v, 2) == root == Path(tables, root, w, 2);
    assert Path(tables, root, v, 1) == Path(tables, root, w, 1);
  }

  /** A table on the way determines the part it covers. */
  lemma PathArea(tables: Tables, sh: Shape, root: nat, v: nat, w: nat, level: nat)
    requires Trees(tables, sh) && IsRoot(tables, sh, root) && level <= 1 && v < VPNS && w < VPNS
    requires Path(tables, root, v, level + 1) == Path(tables, root, w, level + 1) != 0
    requires Px(level + 1, v) == Px(level + 1, w)
    ensures Area(level, v) == Area(level, w)
  {
    PathOk(tables, sh, root, v, level + 1);
    PathOk(tables, sh, root, w, level + 1);
    assert v / 262144 == v / 512 / 512 && w / 262144 == w / 512 / 512;
  }

  lemma AddMade(tables: Tables, sh: Shape, root: nat, vpn: nat, level: nat, p: nat, v: nat, k: nat)
    requires level <= 1 && IsRoot(tables, sh, root) && v < VPNS && vpn < VPNS && k <= 1
    requires Path(tables, root, vpn, level + 1) != 0
    requires CanAdd(tables, sh, Path(tables, root, vpn, level + 1), Px(level + 1, vpn), p)
    ensures var now := AddTable(tables, Path(tables, root, vpn, level + 1), Px(level + 1, vpn), p);
            Has(now, root, v, k) <==> Has(tables, root, v, k) || (k == level && Area(k, v) == Area(k, vpn))
  {
    var t, i := Path(tables, root, vpn, level + 1), Px(level + 1, vpn);
    var now := AddTable(tables, t, i, p);
    NoZero(tables, sh);
    assert TableOk(tables, sh, t);
    PathOk(tables, sh, root, vpn, level + 1);
    PathOk(tables, sh, root, v, k + 1);
    AddTablePath(tables, sh, t, i, p, root, v, k + 1);
    AddTablePath(tables, sh, t, i, p, root, v, k);
    AddTablePath(tables, sh, t, i, p, root, vpn, level + 1);
    var up := Path(tables, root, v, k + 1);
    if k == level && Area(k, v) == Area(k, vpn) {
      SameArea(now, root, v, vpn, k);
    } else if k == level && up == t && Px(k + 1, v) == i {
      PathArea(tables, sh, root, v, vpn, level);
    }
  }

  lemma MadeNone(tables: Tables, root: nat, vpn: nat)
    ensures MadeFrom(tables, tables, root, vpn, 2)
  {
  }

  /** One more level down: the table is made, or was there. */
  lemma MadeNext(tables: Tables, was: Tables, now: Tables, sh: Shape, root: nat, vpn: nat, level: nat, p: nat)
    requires level <= 1 && Trees(was, sh) && IsRoot(was, sh, root) && vpn < VPNS && p != 0
    requires MadeFrom(tables, was, root, vpn, level + 1) && Path(was, root, vpn, level + 1) != 0
    requires var t, i := Path(was, root, vpn, level + 1), Px(level + 1, vpn);
             if Child(was, t, i) != 0 then now == was
             else CanAdd(was, sh, t, i, p) && now == AddTable(was, t, i, p)
    ensures MadeFrom(tables, now, root, vpn, level)
    ensures Has(was, root, vpn, level) <==> Has(tables, root, vpn, level)
  {
    hide Path, CanAdd, AddTable;
    var t, i := Path(was, root, vpn, level + 1), Px(level + 1, vpn);
    assert Path(was, root, vpn, level) == Child(was, t, i) by { OneDown(was, root, vpn, level); }
    forall v: nat, k: nat | v < VPNS && k <= 1
      ensures Has(now, root, v, k) <==> Has(tables, root, v, k) || (level <= k && Area(k, v) == Area(k, vpn))
    {
      assert Has(was, root, v, k) <==> Has(tables, root, v, k) || (level + 1 <= k && Area(k, v) == Area(k, vpn));
      if Child(was, t, i) == 0 {
        AddMade(was, sh, root, vpn, level, p, v, k);
      } else if k == level && Area(k, v) == Area(k, vpn) {
        SameArea(was, root, v, vpn, k);
      }
    }
  }

  lemma Descended(tables: Tables, was: Tables, now: Tables, sh: Shape, root: nat, vpn: nat, level: nat, c: nat)
    requires level <= 1 && Trees(was, sh) && IsRoot(was, sh, root) && vpn < VPNS
    requires MadeFrom(tables, was, root, vpn, level + 1) && Path(was, root, vpn, level + 1) != 0
    requires var t, i := Path(was, root, vpn, level + 1), Px(level + 1, vpn);
             && (Child(was, t, i) != 0 ==> c != 0 && now == was)
             && (Child(was, t, i) == 0 && c != 0 ==> CanAdd(was, sh, t, i, c) && now == AddTable(was, t, i, c))
    ensures Has(was, root, vpn, level) <==> Has(tables, root, vpn, level)
    ensures c != 0 ==> MadeFrom(tables, now, root, vpn, level)
    ensures !Has(tables, root, vpn, level) ==>
              && NeedFrom(tables, root, vpn, level) == NeedFrom(tables, root, vpn, level + 1) + 1
              && NeedFrom(tables, root, vpn, level) <= Need(tables, root, vpn)
    ensures Has(tables, root, vpn, level) ==>
              NeedFrom(tables, root, vpn, level) == NeedFrom(tables, root, vpn, level + 1)
  {
    assert Has(was, root, vpn, level) <==> Has(tables, root, vpn, level);
    hide Has, CanAdd, AddTable, Child;
    if c != 0 { MadeNext(tables, was, now, sh, root, vpn, level, c); }
  }

  /** The tables that the pages lack. */
  ghost function Missing(tables: Tables, root: nat, pages: set<nat>): (s: set<(nat, nat)>) {
    set v: nat, k: nat | v in pages && k <= 1 && !Has(tables, root, v, k) :: (k, Area(k, v))
  }

  /** The tables are as before, and there are those of the pages. */
  ghost predicate MadeAll(tables: Tables, tables': Tables, root: nat, pages: set<nat>) {
    forall v: nat, k: nat :: v < VPNS && k <= 1 ==>
      (Has(tables', root, v, k) <==>
        Has(tables, root, v, k) || exists w: nat :: w in pages && Area(k, w) == Area(k, v))
  }

  lemma MadeAllNone(tables: Tables, root: nat)
    ensures MadeAll(tables, tables, root, {}) && Missing(tables, root, {}) == {}
  {
  }

  lemma MadeAllNext(tables: Tables, was: Tables, now: Tables, root: nat, pages: set<nat>, a: nat)
    requires MadeAll(tables, was, root, pages) && MadeFrom(was, now, root, a, 0)
    ensures MadeAll(tables, now, root, pages + {a})
  {
    hide Has, Area;
    forall v: nat, k: nat | v < VPNS && k <= 1
      ensures Has(now, root, v, k) <==>
                Has(tables, root, v, k) || exists w: nat :: w in pages + {a} && Area(k, w) == Area(k, v)
    {
      assert Has(now, root, v, k) <==> Has(was, root, v, k) || Area(k, v) == Area(k, a);
      if Area(k, v) == Area(k, a) { assert a in pages + {a}; }
      if w: nat :| w in pages && Area(k, w) == Area(k, v) { assert w in pages + {a}; }
    }
  }

  /** A table still missing for page `a` is one that none of the pages lacked. */
  lemma StillMissing(tables: Tables, was: Tables, root: nat, pages: set<nat>, a: nat, k: nat)
    requires a < VPNS && MadeAll(tables, was, root, pages) && k <= 1
    ensures !Has(was, root, a, k) <==> !Has(tables, root, a, k) && (k, Area(k, a)) !in Missing(tables, root, pages)
  {
    forall w: nat | w in pages && Area(k, w) == Area(k, a)
      ensures Has(tables, root, w, k) <==> Has(tables, root, a, k)
    {
      SameArea(tables, root, w, a, k);
    }
    hide Area;
  }

  /** What one more page lacks is what walk has to make for it. */
  lemma MissingMore(tables: Tables, was: Tables, root: nat, pages: set<nat>, a: nat)
    requires a < VPNS && MadeAll(tables, was, root, pages)
    ensures |Missing(tables, root, pages + {a})| == |Missing(tables, root, pages)| + Need(was, root, a)
  {
    StillMissing(tables, was, root, pages, a, 0);
    StillMissing(tables, was, root, pages, a, 1);
    MissingNext(tables, root, pages, a);
    hide Missing, MadeAll, Has, Area;
    var m, x, y := Missing(tables, root, pages), (0, Area(0, a)), (1, Area(1, a));
    var m' := m + if Has(tables, root, a, 0) then {} else {x};
    AddMaybe(m, Has(tables, root, a, 0), x);
    AddMaybe(m', Has(tables, root, a, 1), y);
    assert y in m' <==> y in m;
  }

  lemma AddMaybe(m: set<(nat, nat)>, skip: bool, x: (nat, nat))
    ensures |m + (if skip then {} else {x})| == |m| + if skip || x in m then 0 else 1
  {
    if skip {
      assert m + {} == m;
    } else if x in m {
      assert m + {x} == m;
    }
  }

  lemma MissingNext(tables: Tables, root: nat, pages: set<nat>, a: nat)
    ensures Missing(tables, root, pages + {a}) == Missing(tables, root, pages)
            + (if Has(tables, root, a, 0) then {} else {(0, Area(0, a))})
            + (if Has(tables, root, a, 1) then {} else {(1, Area(1, a))})
  {
    hide Has, Area;
    var now := Missing(tables, root, pages + {a});
    forall k: nat | k <= 1 && !Has(tables, root, a, k) ensures (k, Area(k, a)) in now {
    }
    forall v: nat, k: nat | v in pages && k <= 1 && !Has(tables, root, v, k) ensures (k, Area(k, v)) in now {
    }
  }

  lemma MissingGrows(tables: Tables, root: nat, a: set<nat>, b: set<nat>)
    requires a <= b
    ensures |Missing(tables, root, a)| <= |Missing(tables, root, b)|
  {
    hide Has, Area;
    assert Missing(tables, root, a) <= Missing(tables, root, b);
    Counting.SubsetSize(Missing(tables, root, a), Missing(tables, root, b));
  }

  lemma MadeAllSame(tables: Tables, was: Tables, now: Tables, root: nat, pages: set<nat>)
    requires MadeAll(tables, was, root, pages) && MadeAll(was, now, root, {})
    ensures MadeAll(tables, now, root, pages)
  {
    hide Has, Area;
    forall v: nat, k: nat | v < VPNS && k <= 1 ensures Has(now, root, v, k) <==> Has(was, root, v, k) {
    }
  }

  lemma SamePaths(tables: Tables, tables': Tables, root: nat)
    requires forall v: nat, k: nat :: k <= 1 ==> Path(tables', root, v, k) == Path(tables, root, v, k)
    ensures MadeAll(tables, tables', root, {}) && forall v: nat :: Need(tables', root, v) == Need(tables, root, v)
  {
    hide Path, Area;
  }

  ghost function Between(lo: nat, hi: nat): (pages: set<nat>)
    ensures forall v: nat :: v in pages <==> lo <= v < hi
  {
    if hi <= lo then {} else Between(lo, hi - 1) + {hi - 1}
  }

  lemma BetweenNext(lo: nat, a: nat)
    requires lo <= a
    ensures Between(lo, a + 1) == Between(lo, a) + {a} && Between(lo, lo) == {}
  {
  }

  /** The first page of [lo, n) that is mapped, or `n`. */
  ghost function Stop(flat: map<Slot, Pte>, root: nat, lo: nat, n: nat): (v: nat)
    ensures lo <= n ==> lo <= v <= n && forall w: nat :: lo <= w < v ==> Slot(root, w) !in flat
    ensures v < n ==> lo <= v && Slot(root, v) in flat
    decreases n - lo
  {
    if lo >= n then n else if Slot(root, lo) in flat then lo else Stop(flat, root, lo + 1, n)
  }

  /** How many tables mappages makes for [lo, n), of which it maps what lies before the first page mapped already. */
  ghost function TablesFor(tables: Tables, flat: map<Slot, Pte>, root: nat, lo: nat, n: nat): (k: nat)
    requires lo <= n
  {
    |Missing(tables, root, Between(lo, Stop(flat, root, lo, n)))|
  }

  /** Pages [lo, a) were not mapped; the tables made for them have left `left` of the `free` pages. */
  ghost predicate Extended(tables: Tables, flat: map<Slot, Pte>, root: nat, lo: nat, a: nat, free: nat, now: Tables,
                           left: nat) {
    && lo <= a && MadeAll(tables, now, root, Between(lo, a)) && left + |Missing(tables, root, Between(lo, a))| == free
    && forall v: nat :: lo <= v < a ==> Slot(root, v) !in flat
  }

  lemma ExtendedNone(tables: Tables, flat: map<Slot, Pte>, root: nat, lo: nat, free: nat)
    ensures Extended(tables, flat, root, lo, lo, free, tables, free)
  {
    MadeAllNone(tables, root);
    BetweenNext(lo, lo);
  }

  /** What the next page decides. */
  lemma ExtendedNext(tables: Tables, flat: map<Slot, Pte>, root: nat, lo: nat, a: nat, n: nat, free: nat, now: Tables,
                     left: nat)
    requires Extended(tables, flat, root, lo, a, free, now, left) && a < n <= MAX_VPN
    ensures Slot(root, a) in flat ==>
              Stop(flat, root, lo, n) == a && TablesFor(tables, flat, root, lo, n) == free - left
    ensures Slot(root, a) !in flat ==>
              Stop(flat, root, lo, n) > a && TablesFor(tables, flat, root, lo, n) >= free - left + Need(now, root, a)
  {
    hide Missing, MadeAll, Need;
    MissingMore(tables, now, root, Between(lo, a), a);
    BetweenNext(lo, a);
    var v := Stop(flat, root, lo, n);
    if Slot(root, a) !in flat { MissingGrows(tables, root, Between(lo, a + 1), Between(lo, v)); }
  }

  lemma ExtendedMore(tables: Tables, flat: map<Slot, Pte>, root: nat, lo: nat, a: nat, free: nat, was: Tables,
                     left: nat, now: Tables)
    requires Extended(tables, flat, root, lo, a, free, was, left) && a < MAX_VPN && Slot(root, a) !in flat
    requires MadeFrom(was, now, root, a, 0) && left >= Need(was, root, a)
    ensures Extended(tables, flat, root, lo, a + 1, free, now, left - Need(was, root, a))
  {
    hide Missing, MadeAll, Need, MadeFrom;
    MissingMore(tables, was, root, Between(lo, a), a);
    MadeAllNext(tables, was, now, root, Between(lo, a), a);
    BetweenNext(lo, a);
  }

  lemma ExtendedMisses(tables: Tables, flat: map<Slot, Pte>, root: nat, lo: nat, a: nat, free: nat, now: Tables,
                       left: nat)
    requires Extended(tables, flat, root, lo, a, free, now, left)
    ensures forall s :: s in flat ==> !(s.root == root && lo <= s.vpn < a)
  {
    hide Missing, MadeAll;
    forall s | s in flat ensures !(s.root == root && lo <= s.vpn < a) {
      if s.root == root { assert s == Slot(root, s.vpn); }
    }
  }

  lemma ExtendedAll(tables: Tables, flat: map<Slot, Pte>, root: nat, lo: nat, n: nat, free: nat, now: Tables, left: nat)
    requires Extended(tables, flat, root, lo, n, free, now, left)
    ensures Stop(flat, root, lo, n) == n && TablesFor(tables, flat, root, lo, n) <= free
  {
    hide Missing, MadeAll;
  }

  /** A mapped page has all its tables. */
  lemma MappedHas(tables: Tables, sh: Shape, flat: map<Slot, Pte>, root: nat, vpn: nat)
    requires Trees(tables, sh) && Flattens(tables, sh, flat)
    ensures Slot(root, vpn) in flat ==> Need(tables, root, vpn) == 0
  {
    assert FlatAt(tables, sh, flat, Slot(root, vpn));
    NoZero(tables, sh);
    OneDown(tables, root, vpn, 0);
  }

  lemma SameMade(tables: Tables, was: Tables, now: Tables, root: nat, vpn: nat)
    requires MadeFrom(tables, was, root, vpn, 0)
    requires forall v: nat, k: nat :: k <= 1 ==> Path(now, root, v, k) == Path(was, root, v, k)
    ensures MadeFrom(tables, now, root, vpn, 0)
  {
    forall v: nat, k: nat | v < VPNS && k <= 1
      ensures Has(now, root, v, k) <==> Has(tables, root, v, k) || Area(k, v) == Area(k, vpn)
    {
      assert Has(was, root, v, k) <==> Has(tables, root, v, k) || Area(k, v) == Area(k, vpn);
    }
  }

  lemma NoPath(tables: Tables, root: nat, vpn: nat)
    ensures Path(tables, root, vpn, 0) == 0 ==> Need(tables, root, vpn) > 0
  {
  }

  lemma OneDown(tables: Tables, root: nat, vpn: nat, level: nat)
    requires level <= 1
    ensures Path(tables, root, vpn, level) == Child(tables, Path(tables, root, vpn, level + 1), Px(level + 1, vpn))
  {
  }

  // ----- the code

  /** New tables are pages fresh from the allocator, counted once; nothing else changes. */
  ghost predicate Grew(was: Tables, now: Tables, count: map<nat, nat>, count': map<nat, nat>) {
    && was.Keys <= now.Keys
    && (forall p :: p in count' <==> p in count || (p in now && p !in was))
    && (forall p :: p in count ==> count'[p] == count[p])
    && (forall p :: p in now && p !in was ==> p !in count && p in count' && count'[p] == 1)
  }

  ghost predicate TablesCounted(tables: Tables, count: map<nat, nat>) {
    forall t :: t in tables ==> t in count && count[t] == 1
  }

  datatype MapResult = Mapped | NoMemory | Remap

  class PageTables {
    const kmem: Kmem
    var tables: Tables
    ghost var sh: Shape
    ghost var flat: map<Slot, Pte>

    ghost predicate Valid()
      reads this, kmem
    {
      && kmem.Valid()
      && Trees(tables, sh) && Flattens(tables, sh, flat) && TablesCounted(tables, kmem.count)
    }

    ghost predicate Root(root: nat)
      reads this
    {
      IsRoot(tables, sh, root)
    }

    constructor (kmem: Kmem)
      requires kmem.Valid()
      ensures Valid() && this.kmem == kmem && tables == map[] && flat == map[]
    {
      this.kmem := kmem;
      tables, sh, flat := map[], Shape(map[], map[]), map[];
      new;
      assert forall s :: FlatAt(tables, sh, flat, s);
    }

    /** uvmcreate: the root of a new, empty address space, or 0 when memory is exhausted. */
    method Uvmcreate() returns (root: nat)
      requires Valid()
      modifies this, kmem
      ensures |kmem.free| + 1 >= |old(kmem.free)|
      ensures Valid() && flat == old(flat)
      ensures root == 0 <==> old(kmem.free) == []
      ensures root == 0 ==> tables == old(tables) && kmem.count == old(kmem.count)
      ensures root != 0 ==> Root(root) && root !in old(kmem.count) && tables == old(tables)[root := ZeroTable()]
                            && kmem.count == old(kmem.count)[root := 1]
      ensures RootsKept(old(tables), old(sh), tables, sh)
    {
      hide Kmem.Valid, Trees, Flattens;
      root := kmem.Kalloc();
      if root != 0 {
        NewRoot(tables, sh, flat, root);
        tables := tables[root := ZeroTable()];
        sh := Shape(sh.level[root := 2], sh.parent - {root});
      }
    }

    /** One level of walk: the table below, created if `alloc`; 0 if there is none. */
    method Descend(t: nat, i: nat, alloc: bool) returns (c: nat)
      requires Valid() && t in tables && t in sh.level && sh.level[t] > 0 && i < 512
      modifies this, kmem
      ensures |kmem.free| == |old(kmem.free)| - if alloc && c != 0 && Child(old(tables), t, i) == 0 then 1 else 0
      ensures alloc ==> (c == 0 <==> Child(old(tables), t, i) == 0 && old(kmem.free) == [])
      ensures c != 0 ==> t in old(tables) && i < |old(tables)[t]|
      ensures Child(old(tables), t, i) != 0 ==> tables == old(tables)
      ensures c != 0 && Child(old(tables), t, i) == 0 ==> && CanAdd(old(tables), old(sh), t, i, c)
                                                          && tables == AddTable(old(tables), t, i, c)
      ensures Valid() && flat == old(flat)
      ensures !alloc ==> tables == old(tables) && sh == old(sh)
      ensures !alloc ==> kmem.count == old(kmem.count) && kmem.free == old(kmem.free)
      ensures Grew(old(tables), tables, old(kmem.count), kmem.count)
      ensures t in tables && c == Child(tables, t, i)
      ensures c == 0 ==> tables == old(tables) && sh == old(sh) && (alloc ==> kmem.free == [])
      ensures c == 0 || (c in tables && c in sh.level && t in old(sh.level) && sh.level[c] == old(sh.level)[t] - 1)
      ensures forall x :: x in old(sh.level) && x in old(tables) ==> x in sh.level && sh.level[x] == old(sh.level)[x]
      ensures forall x :: x in old(tables) && x != t ==> x in tables && tables[x] == old(tables)[x]
      ensures t in old(tables) && |tables[t]| == |old(tables)[t]|
      ensures forall j :: 0 <= j < |tables[t]| && j != i ==> tables[t][j] == old(tables)[t][j]
    {
      hide Kmem.Valid, Flattens;
      assert TableOk(tables, sh, t) && EntryOk(tables, sh, t, i);
      if tables[t][i].v {
        assert TableOk(tables, sh, tables[t][i].ppn);
        return tables[t][i].ppn;
      }
      if !alloc { return 0; }
      c := kmem.Kalloc();
      if c == 0 { return; }
      AddTableTrees(tables, sh, t, i, c);
      AddTableFlat(tables, sh, flat, t, i, c);
      hide Trees;
      sh := AddShape(sh, t, i, c);
      tables := AddTable(tables, t, i, c);
    }

    /** walk: the bottom table for a page, with the tables on the way created if `alloc`; 0 if there is none. */
    method Walk(root: nat, vpn: nat, alloc: bool) returns (t: nat)
      requires Valid() && Root(root) && vpn < MAX_VPN
      modifies this, kmem
      ensures |kmem.free| + 2 >= |old(kmem.free)|
      ensures alloc ==> (t == 0 <==> |old(kmem.free)| < Need(old(tables), root, vpn))
      ensures alloc && t != 0 ==> && |kmem.free| == |old(kmem.free)| - Need(old(tables), root, vpn)
                                  && MadeFrom(old(tables), tables, root, vpn, 0)
      ensures Valid() && flat == old(flat)
      ensures !alloc ==> tables == old(tables) && sh == old(sh)
      ensures !alloc ==> kmem.count == old(kmem.count) && kmem.free == old(kmem.free)
      ensures Grew(old(tables), tables, old(kmem.count), kmem.count)
      ensures t == Path(tables, root, vpn, 0)
      ensures t == 0 && alloc ==> kmem.free == []
      ensures RootsKept(old(tables), old(sh), tables, sh)
    {
      hide Kmem.Valid, Trees, Flattens, Px, Child, MadeFrom, CanAdd, AddTable;
      NoZero(tables, sh);
      MadeNone(tables, root, vpn);
      t := root;
      var level := 2;
      while level > 0
        invariant Valid() && flat == old(flat) && 0 <= level <= 2
        invariant alloc ==> MadeFrom(old(tables), tables, root, vpn, level)
        invariant alloc ==> |kmem.free| == |old(kmem.free)| - NeedFrom(old(tables), root, vpn, level)
        invariant !alloc ==> tables == old(tables) && sh == old(sh)
        invariant !alloc ==> kmem.count == old(kmem.count) && kmem.free == old(kmem.free)
        invariant Grew(old(tables), tables, old(kmem.count), kmem.count)
        invariant t != 0 && t == Path(tables, root, vpn, level)
        invariant t in tables && t in sh.level && sh.level[t] == level
        invariant RootsKept(old(tables), old(sh), tables, sh)
      {
        ghost var was, shape, count := tables, sh, kmem.count;
        var up := t;
        t := Descend(up, Px(level, vpn), alloc);
        GrewMore(old(tables), was, tables, old(kmem.count), count, kmem.count);
        PathStable(was, tables, shape, root, vpn, level);
        OneDown(was, root, vpn, level - 1);
        if alloc { Descended(old(tables), was, tables, shape, root, vpn, level - 1, t); }
        level := level - 1;
        if t == 0 {
          DeadEnd(tables, sh, root, vpn, level);
          return;
        }
      }
    }

    /** `*pte = ...` through the pointer walk returned for a page. */
    method SetPte(root: nat, vpn: nat, t: nat, pte: Pte)
      requires Valid() && Root(root) && vpn < MAX_VPN && t == Path(tables, root, vpn, 0) != 0
      modifies this
      ensures Valid() && flat == SetFlat(old(flat), Slot(root, vpn), pte)
      ensures sh == old(sh) && tables.Keys == old(tables.Keys)
      ensures forall r: nat, v: nat, k: nat :: Root(r) && k <= 1 ==> Path(tables, r, v, k) == Path(old(tables), r, v, k)
      ensures RootsKept(old(tables), old(sh), tables, sh)
    {
      hide Kmem.Valid, Trees, Flattens, Path;
      SetLeafFlat(tables, sh, flat, Slot(root, vpn), pte);
      forall r: nat, v: nat, k: nat | Root(r) && k <= 1
        ensures Path(SetEntry(tables, t, Px(0, vpn), pte), r, v, k) == Path(tables, r, v, k)
      {
        SetLeafPath(tables, sh, t, Px(0, vpn), pte, r, v, k);
      }
      tables := SetEntry(tables, t, Px(0, vpn), pte);
      flat := SetFlat(flat, Slot(root, vpn), pte);
    }

    /** The entry of a page, as read through the pointer walk returned. */
    method GetPte(root: nat, vpn: nat, t: nat) returns (pte: Pte)
      requires Valid() && Root(root) && vpn < MAX_VPN && t == Path(tables, root, vpn, 0)
      ensures pte.v <==> Slot(root, vpn) in flat
      ensures pte.v ==> t != 0 && pte == flat[Slot(root, vpn)]
    {
      assert FlatAt(tables, sh, flat, Slot(root, vpn));
      if t == 0 {
        NoZero(tables, sh);
        return NullPte();
      }
      PathOk(tables, sh, root, vpn, 0);
      assert TableOk(tables, sh, t);
      pte := tables[t][Px(0, vpn)];
    }

    lemma MappedNeed(root: nat, vpn: nat)
      requires Valid()
      ensures Slot(root, vpn) in flat ==> Need(tables, root, vpn) == 0
    {
      MappedHas(tables, sh, flat, root, vpn);
    }

    /** One iteration of mappages. */
    method MapPage(root: nat, vpn: nat, pte: Pte) returns (r: MapResult)
      requires Valid() && Root(root) && vpn < MAX_VPN && pte.v
      modifies this, kmem
      ensures |kmem.free| + 2 >= |old(kmem.free)|
      ensures Valid() && Grew(old(tables), tables, old(kmem.count), kmem.count)
      ensures r.Remap? <==> Slot(root, vpn) in old(flat)
      ensures Slot(root, vpn) in old(flat) ==> Need(old(tables), root, vpn) == 0
      ensures r.NoMemory? <==> |old(kmem.free)| < Need(old(tables), root, vpn)
      ensures r.Mapped? ==> && |kmem.free| == |old(kmem.free)| - Need(old(tables), root, vpn)
                            && MadeFrom(old(tables), tables, root, vpn, 0)
      ensures r.NoMemory? ==> kmem.free == [] && Need(tables, root, vpn) > 0
      ensures flat == if r.Mapped? then old(flat)[Slot(root, vpn) := pte] else old(flat)
      ensures RootsKept(old(tables), old(sh), tables, sh)
    {
      hide Kmem.Valid, Trees, Flattens, Path, MadeFrom, Need;
      MappedNeed(root, vpn);
      var t := Walk(root, vpn, true);
      NoPath(tables, root, vpn);
      var was := GetPte(root, vpn, t);
      if was.v { return Remap; }
      if t == 0 { return NoMemory; }
      ghost var walked := tables;
      SetPte(root, vpn, t, pte);
      SameMade(old(tables), walked, tables, root, vpn);
      r := Mapped;
    }

    /**
     mappages: `n` pages from `vpn` to consecutive physical pages, or the first `k` of them. Memory runs out, or a
     mapped page is met, exactly as the tables that are missing before the first mapped page say.
     */
    method Mappages(root: nat, vpn: nat, n: nat, perm: Pte) returns (r: MapResult, ghost k: nat)
      requires Valid() && Root(root) && 0 < n && vpn + n <= MAX_VPN && perm.v
      modifies this, kmem
      ensures r.NoMemory? <==> |old(kmem.free)| < TablesFor(old(tables), old(flat), root, vpn, vpn + n)
      ensures r.Remap? <==> && Stop(old(flat), root, vpn, vpn + n) < vpn + n
                            && TablesFor(old(tables), old(flat), root, vpn, vpn + n) <= |old(kmem.free)|
      ensures Valid() && Grew(old(tables), tables, old(kmem.count), kmem.count)
      ensures k <= n && (r.Mapped? <==> k == n)
      ensures flat == MapRange(old(flat), root, vpn, perm, k)
      ensures r.Remap? ==> Slot(root, vpn + k) in old(flat)
      ensures r.NoMemory? ==> kmem.free == [] && Need(tables, root, vpn + k) > 0
      ensures forall s :: s in old(flat) ==> !(s.root == root && vpn <= s.vpn < vpn + k)
      ensures RootsKept(old(tables), old(sh), tables, sh)
    {
      hide Kmem.Valid, Trees, Flattens, Path, Grew, IsRoot, Need, MadeFrom, Extended, Stop, TablesFor, MapRange;
      k := 0;
      var i := 0;
      GrewNone(tables, kmem.count);
      ghost var free, T, F := |kmem.free|, tables, flat;
      MapRangeNone(flat, root, vpn, perm);
      ExtendedNone(tables, flat, root, vpn, free);
      while true
        invariant Valid() && Root(root) && i == k < n
        invariant Grew(T, tables, old(kmem.count), kmem.count)
        invariant Extended(T, F, root, vpn, vpn + k, free, tables, |kmem.free|)
        invariant flat == MapRange(F, root, vpn, perm, k)
        invariant RootsKept(T, old(sh), tables, sh)
        decreases n - i
      {
        ghost var was, count, left := tables, kmem.count, |kmem.free|;
        MapRangeStep(F, root, vpn, perm, k);
        ExtendedNext(T, F, root, vpn, vpn + k, vpn + n, free, tables, left);
        r := MapPage(root, vpn + i, perm.(ppn := perm.ppn + i));
        GrewMore(T, was, tables, old(kmem.count), count, kmem.count);
        if !r.Mapped? {
          ExtendedMisses(T, F, root, vpn, vpn + k, free, was, left);
          return;
        }
        ExtendedMore(T, F, root, vpn, vpn + k, free, was, left, tables);
        i, k := i + 1, k + 1;
        if i == n {
          ExtendedMisses(T, F, root, vpn, vpn + k, free, tables, |kmem.free|);
          ExtendedAll(T, F, root, vpn, vpn + n, free, tables, |kmem.free|);
          return;
        }
      }
    }

    /** freewalk: frees the tables under `t`, each exactly once, and no other page. */
    method Freewalk(t: nat)
      requires kmem.Valid() && Trees(tables, sh) && TablesCounted(tables, kmem.count)
      requires t in tables && Barren(tables, sh, t)
      modifies this`tables, kmem
      ensures kmem.Valid()
      ensures tables == old(tables) - Subtree(old(tables), sh, t)
      ensures kmem.count == old(kmem.count) - Subtree(old(tables), sh, t)
      decreases sh.level[t]
    {
      hide Kmem.Valid, Trees, Subtree, Barren;
      ghost var T := tables;
      PrunedNone(T, sh, t, kmem.count);
      for i := 0 to 512
        invariant kmem.Valid() && Pruned(T, sh, t, i, tables, old(kmem.count), kmem.count)
      {
        PrunedHas(T, sh, t, i, tables, old(kmem.count), kmem.count);
        var pte := tables[t][i];
        if pte.v && !pte.r && !pte.w && !pte.x {
          ghost var was, count := tables, kmem.count;
          Freewalk(pte.ppn);
          PrunedChild(T, sh, t, i, was, old(kmem.count), count);
          tables := tables[t := tables[t][i := NullPte()]];
        } else if pte.v {
          assert false;   // panic("freewalk: leaf")
        } else {
          PrunedEmpty(T, sh, t, i, tables, old(kmem.count), kmem.count);
        }
      }
      PrunedAll(T, sh, t, tables, old(kmem.count), kmem.count);
      var ok := kmem.Kfree(t);
      tables := tables - {t};
    }

    /** freewalk of a whole address space that maps nothing any more. */
    method FreeRoot(root: nat)
      requires Valid() && Root(root) && forall s :: s in flat ==> s.root != root
      modifies this`tables, kmem
      ensures Valid() && !Root(root)
      ensures tables == old(tables) - Subtree(old(tables), sh, root)
      ensures kmem.count == old(kmem.count) - Subtree(old(tables), sh, root)
      ensures forall x :: IsRoot(old(tables), sh, x) && x != root ==> IsRoot(tables, sh, x)
    {
      hide Kmem.Valid, Trees, Flattens, Under, Barren;
      BarrenRoot(tables, sh, flat, root);
      WithoutRoot(tables, sh, flat, root);
      Freewalk(root);
    }
  }

  lemma PxOf(i2: nat, i1: nat, i0: nat)
    requires i2 < 512 && i1 < 512 && i0 < 512
    ensures var vpn := i2 * 262144 + i1 * 512 + i0;
            vpn < VPNS && Px(2, vpn) == i2 && Px(1, vpn) == i1 && Px(0, vpn) == i0
  {
    var vpn := i2 * 262144 + i1 * 512 + i0;
    assert vpn / 512 == i2 * 512 + i1;
    assert vpn / 262144 == i2;
  }

  lemma BarrenRoot(tables: Tables, sh: Shape, flat: map<Slot, Pte>, root: nat)
    requires Trees(tables, sh) && Flattens(tables, sh, flat) && IsRoot(tables, sh, root)
    requires forall s :: s in flat ==> s.root != root
    ensures Barren(tables, sh, root)
  {
    forall x, i: nat | x in tables && Under(sh, x, root) && x in sh.level && sh.level[x] == 0 && i < |tables[x]|
      ensures !tables[x][i].v
    {
      assert TableOk(tables, sh, root) && TableOk(tables, sh, x);
      var up := sh.parent[x];
      assert TableOk(tables, sh, up.table);
      var top := sh.parent[up.table];
      assert TableOk(tables, sh, top.table);
      PxOf(top.idx, up.idx, i);
      var vpn := top.idx * 262144 + up.idx * 512 + i;
      assert Path(tables, root, vpn, 2) == root;
      assert Path(tables, root, vpn, 1) == up.table;
      assert Path(tables, root, vpn, 0) == x;
      assert FlatAt(tables, sh, flat, Slot(root, vpn));
    }
  }

  /** Removing one address space that maps nothing leaves the others as they were. */
  lemma WithoutRoot(tables: Tables, sh: Shape, flat: map<Slot, Pte>, root: nat)
    requires Trees(tables, sh) && Flattens(tables, sh, flat) && IsRoot(tables, sh, root)
    requires forall s :: s in flat ==> s.root != root
    ensures var now := tables - Subtree(tables, sh, root);
            && Trees(now, sh) && Flattens(now, sh, flat) && !IsRoot(now, sh, root)
            && forall x :: IsRoot(tables, sh, x) && x != root ==> IsRoot(now, sh, x)
  {
    var now := tables - Subtree(tables, sh, root);
    forall x | x in now ensures TableOk(now, sh, x) {
      assert TableOk(tables, sh, x);
      if sh.level[x] < 2 { UpOutside(tables, sh, root, x); }
      if sh.level[x] > 0 {
        forall j: nat | j < 512 ensures EntryOk(now, sh, x, j) {
          assert EntryOk(tables, sh, x, j);
          if tables[x][j].v { DownOutside(tables, sh, root, x, j); }
        }
      }
    }
    assert TableOk(tables, sh, root);
    forall x | IsRoot(tables, sh, x) && x != root ensures IsRoot(now, sh, x) { assert TableOk(tables, sh, x); }
    forall s ensures FlatAt(now, sh, flat, s) {
      assert FlatAt(tables, sh, flat, s);
      if IsRoot(now, sh, s.root) { OtherPath(tables, sh, root, s.root, s.vpn, 0); }
    }
  }

  lemma UpOutside(tables: Tables, sh: Shape, root: nat, x: nat)
    requires Trees(tables, sh) && IsRoot(tables, sh, root) && x in tables && !Under(sh, x, root)
    requires x in sh.level && sh.level[x] < 2
    ensures x in sh.parent && !Under(sh, sh.parent[x].table, root)
  {
    assert TableOk(tables, sh, root) && TableOk(tables, sh, x);
    var y := sh.parent[x].table;
    assert TableOk(tables, sh, y);
    if y in sh.parent {
      var z := sh.parent[y].table;
      assert TableOk(tables, sh, z);
    }
  }

  lemma DownOutside(tables: Tables, sh: Shape, root: nat, x: nat, j: nat)
    requires Trees(tables, sh) && IsRoot(tables, sh, root) && x in tables && !Under(sh, x, root)
    requires x in sh.level && sh.level[x] > 0 && j < |tables[x]| && tables[x][j].v
    ensures !Under(sh, tables[x][j].ppn, root)
  {
    assert TableOk(tables, sh, root) && TableOk(tables, sh, x) && EntryOk(tables, sh, x, j);
    assert TableOk(tables, sh, tables[x][j].ppn);
  }

  /** Walks in other address spaces meet no table of this one. */
  lemma OtherPath(tables: Tables, sh: Shape, root: nat, r: nat, vpn: nat, level: nat)
    requires Trees(tables, sh) && IsRoot(tables, sh, root) && IsRoot(tables, sh, r) && r != root && level <= 2
    ensures Path(tables - Subtree(tables, sh, root), r, vpn, level) == Path(tables, r, vpn, level)
    ensures var t := Path(tables, r, vpn, level); t != 0 ==> t in tables && !Under(sh, t, root)
    decreases 2 - level
  {
    NoZero(tables, sh);
    PathOk(tables, sh, r, vpn, level);
    if level == 2 {
      assert TableOk(tables, sh, r);
    } else {
      OtherPath(tables, sh, root, r, vpn, level + 1);
      var t := Path(tables, r, vpn, level + 1);
      if Path(tables, r, vpn, level) != 0 {
        PathOk(tables, sh, r, vpn, level + 1);
        DownOutside(tables, sh, root, t, Px(level + 1, vpn));
      }
    }
  }

  // ----- what lies under a table

  ghost predicate Under(sh: Shape, x: nat, t: nat) {
    || x == t
    || (x in sh.parent && sh.parent[x].table == t)
    || (x in sh.parent && sh.parent[x].table in sh.parent && sh.parent[sh.parent[x].table].table == t)
  }

  ghost function Subtree(tables: Tables, sh: Shape, t: nat): (s: set<nat>) {
    set x | x in tables && Under(sh, x, t)
  }

  /** No page is mapped under `t`. */
  ghost predicate Barren(tables: Tables, sh: Shape, t: nat) {
    forall x, i :: x in tables && Under(sh, x, t) && x in sh.level && sh.level[x] == 0 && 0 <= i < |tables[x]| ==>
                     !tables[x][i].v
  }

  /** The entry of `t` through which `x` hangs. */
  ghost function Branch(sh: Shape, x: nat, t: nat): (i: nat) {
    if x in sh.parent && sh.parent[x].table == t then sh.parent[x].idx
    else if x in sh.parent && sh.parent[x].table in sh.parent then sh.parent[sh.parent[x].table].idx
    else 0
  }

  /** What hangs under the first `i` entries of `t`. */
  ghost function Gone(T: Tables, sh: Shape, t: nat, i: nat): (s: set<nat>) {
    set x | x in T && x != t && Under(sh, x, t) && Branch(sh, x, t) < i
  }

  /** freewalk(t) after its first `i` iterations. */
  ghost predicate Pruned(T: Tables, sh: Shape, t: nat, i: nat, tables: Tables, count0: map<nat, nat>,
                         count: map<nat, nat>) {
    && Trees(T, sh) && t in T && t in sh.level && |T[t]| == 512 && i <= 512
    && Trees(tables, sh) && TablesCounted(tables, count) && Barren(tables, sh, t)
    && tables.Keys == T.Keys - Gone(T, sh, t, i)
    && (forall x :: x in tables && x != t ==> tables[x] == T[x])
    && t in tables && |tables[t]| == 512
    && (forall j :: 0 <= j < 512 ==> tables[t][j] == if j < i && T[t][j].v then NullPte() else T[t][j])
    && count == count0 - Gone(T, sh, t, i)
  }

  lemma PrunedNone(T: Tables, sh: Shape, t: nat, count: map<nat, nat>)
    requires Trees(T, sh) && TablesCounted(T, count) && t in T && Barren(T, sh, t)
    ensures Pruned(T, sh, t, 0, T, count, count)
  {
    assert TableOk(T, sh, t);
    assert Gone(T, sh, t, 0) == {};
    assert count - {} == count;
  }

  lemma PrunedHas(T: Tables, sh: Shape, t: nat, i: nat, tables: Tables, count0: map<nat, nat>, count: map<nat, nat>)
    requires Pruned(T, sh, t, i, tables, count0, count) && i < 512
    ensures t in tables && |tables[t]| == 512 && t in sh.level && Trees(tables, sh) && TablesCounted(tables, count)
    ensures var pte := tables[t][i];
            pte.v ==> && !pte.r && !pte.w && !pte.x
                      && pte.ppn in tables && pte.ppn in sh.level && sh.level[pte.ppn] < sh.level[t]
                      && Barren(tables, sh, pte.ppn)
  {
    assert TableOk(tables, sh, t);
    if sh.level[t] > 0 {
      assert EntryOk(tables, sh, t, i);
      var c := tables[t][i].ppn;
      if tables[t][i].v {
        forall x | x in tables && Under(sh, x, c) ensures Under(sh, x, t) { UnderChild(tables, sh, t, i, x); }
      }
    }
  }

  /** Under the table at entry `i` of `t` is exactly what hangs through that entry. */
  lemma UnderChild(tables: Tables, sh: Shape, t: nat, i: nat, x: nat)
    requires Trees(tables, sh) && t in tables && t in sh.level && sh.level[t] > 0 && i < |tables[t]| && tables[t][i].v
    requires x in tables
    ensures Under(sh, x, tables[t][i].ppn) <==> x != t && Under(sh, x, t) && Branch(sh, x, t) == i
  {
    assert TableOk(tables, sh, t) && EntryOk(tables, sh, t, i);
    var c := tables[t][i].ppn;
    assert TableOk(tables, sh, c) && TableOk(tables, sh, x);
    if x in sh.parent {
      var y := sh.parent[x].table;
      assert TableOk(tables, sh, y);
      assert sh.level[y] > 0 ==> EntryOk(tables, sh, y, sh.parent[x].idx);
      if y in sh.parent {
        assert TableOk(tables, sh, sh.parent[y].table);
        assert EntryOk(tables, sh, sh.parent[y].table, sh.parent[y].idx);
      }
    }
  }

  lemma GoneNext(T: Tables, sh: Shape, t: nat, i: nat, tables: Tables)
    requires Trees(tables, sh) && t in tables && t in sh.level && sh.level[t] > 0 && i < |tables[t]| && tables[t][i].v
    requires tables.Keys == T.Keys - Gone(T, sh, t, i)
    ensures Gone(T, sh, t, i + 1) == Gone(T, sh, t, i) + Subtree(tables, sh, tables[t][i].ppn)
  {
    var c := tables[t][i].ppn;
    forall x ensures x in Gone(T, sh, t, i + 1) <==> x in Gone(T, sh, t, i) + Subtree(tables, sh, c) {
      if x in tables { UnderChild(tables, sh, t, i, x); }
    }
  }

  /** Cutting off what hangs through one entry, and clearing the entry, leaves trees. */
  lemma PruneTrees(tables: Tables, sh: Shape, t: nat, i: nat)
    requires Trees(tables, sh) && t in tables && t in sh.level && sh.level[t] > 0 && i < |tables[t]| && tables[t][i].v
    ensures var cut := tables - Subtree(tables, sh, tables[t][i].ppn);
            t in cut && i < |cut[t]| && Trees(SetEntry(cut, t, i, NullPte()), sh)
  {
    var c := tables[t][i].ppn;
    var cut := tables - Subtree(tables, sh, c);
    assert TableOk(tables, sh, t) && EntryOk(tables, sh, t, i);
    UnderChild(tables, sh, t, i, t);
    var now := SetEntry(cut, t, i, NullPte());
    forall x | x in now ensures TableOk(now, sh, x) {
      assert TableOk(tables, sh, x) && !Under(sh, x, c);
      if sh.level[x] < 2 {
        UpStays(tables, sh, t, i, x);
      }
      if sh.level[x] > 0 {
        forall j: nat | j < 512 ensures EntryOk(now, sh, x, j) {
          assert EntryOk(tables, sh, x, j);
          if now[x][j].v { DownStays(tables, sh, t, i, x, j); }
        }
      }
    }
  }

  /** The parent of a table that stays also stays, and the entry between them is not the cleared one. */
  lemma UpStays(tables: Tables, sh: Shape, t: nat, i: nat, x: nat)
    requires Trees(tables, sh) && t in tables && t in sh.level && sh.level[t] > 0 && i < |tables[t]| && tables[t][i].v
    requires x in tables && x in sh.level && sh.level[x] < 2 && !Under(sh, x, tables[t][i].ppn)
    ensures x in sh.parent && !Under(sh, sh.parent[x].table, tables[t][i].ppn) && sh.parent[x] != Pos(t, i)
  {
    var c := tables[t][i].ppn;
    assert TableOk(tables, sh, t) && EntryOk(tables, sh, t, i) && TableOk(tables, sh, x) && TableOk(tables, sh, c);
    var y := sh.parent[x].table;
    assert TableOk(tables, sh, y);
    if y in sh.parent { assert TableOk(tables, sh, sh.parent[y].table); }
  }

  lemma DownStays(tables: Tables, sh: Shape, t: nat, i: nat, x: nat, j: nat)
    requires Trees(tables, sh) && t in tables && t in sh.level && sh.level[t] > 0 && i < |tables[t]| && tables[t][i].v
    requires x in tables && x in sh.level && sh.level[x] > 0 && !Under(sh, x, tables[t][i].ppn)
    requires j < |tables[x]| && tables[x][j].v && !(x == t && j == i)
    ensures !Under(sh, tables[x][j].ppn, tables[t][i].ppn)
  {
    var c, y := tables[t][i].ppn, tables[x][j].ppn;
    assert TableOk(tables, sh, t) && EntryOk(tables, sh, t, i) && TableOk(tables, sh, x) && EntryOk(tables, sh, x, j);
    assert TableOk(tables, sh, c) && TableOk(tables, sh, y);
  }

  lemma PrunedChild(T: Tables, sh: Shape, t: nat, i: nat, tables: Tables, count0: map<nat, nat>, count: map<nat, nat>)
    requires Pruned(T, sh, t, i, tables, count0, count) && i < 512 && tables[t][i].v
    ensures var sub := Subtree(tables, sh, tables[t][i].ppn);
            var cut := tables - sub;
            && t in cut && |cut[t]| == 512
            && Pruned(T, sh, t, i + 1, SetEntry(cut, t, i, NullPte()), count0, count - sub)
  {
    PrunedHas(T, sh, t, i, tables, count0, count);
    GoneNext(T, sh, t, i, tables);
    PruneTrees(tables, sh, t, i);
    var sub := Subtree(tables, sh, tables[t][i].ppn);
    assert count0 - Gone(T, sh, t, i) - sub == count0 - (Gone(T, sh, t, i) + sub);
    var now := SetEntry(tables - sub, t, i, NullPte());
    assert now.Keys == tables.Keys - sub;
  }

  lemma PrunedEmpty(T: Tables, sh: Shape, t: nat, i: nat, tables: Tables, count0: map<nat, nat>, count: map<nat, nat>)
    requires Pruned(T, sh, t, i, tables, count0, count) && i < 512 && !tables[t][i].v
    ensures Pruned(T, sh, t, i + 1, tables, count0, count)
  {
    assert TableOk(T, sh, t);
    forall x | x in T && x != t && Under(sh, x, t) ensures Branch(sh, x, t) != i { BranchValid(T, sh, t, x); }
    assert Gone(T, sh, t, i + 1) == Gone(T, sh, t, i);
  }

  lemma BranchValid(T: Tables, sh: Shape, t: nat, x: nat)
    requires Trees(T, sh) && t in T && t in sh.level && x in T && x != t && Under(sh, x, t)
    ensures Branch(sh, x, t) < |T[t]| && T[t][Branch(sh, x, t)].v
  {
    assert TableOk(T, sh, x) && TableOk(T, sh, t);
    if sh.parent[x].table != t { assert TableOk(T, sh, sh.parent[x].table); }
  }

  lemma PrunedAll(T: Tables, sh: Shape, t: nat, tables: Tables, count0: map<nat, nat>, count: map<nat, nat>)
    requires Pruned(T, sh, t, 512, tables, count0, count)
    ensures t in tables && t in count && Dec(count, t) == count - {t}
    ensures tables - {t} == T - Subtree(T, sh, t)
    ensures count - {t} == count0 - Subtree(T, sh, t)
  {
    assert TableOk(T, sh, t);
    forall x | x in T && x != t && Under(sh, x, t) ensures x in Gone(T, sh, t, 512) { BranchValid(T, sh, t, x); }
    assert Subtree(T, sh, t) == Gone(T, sh, t, 512) + {t};
    assert count0 - Gone(T, sh, t, 512) - {t} == count0 - (Gone(T, sh, t, 512) + {t});
  }

  /** `k` consecutive virtual pages mapped to consecutive physical pages. */
  ghost function MapRange(flat: map<Slot, Pte>, root: nat, vpn: nat, perm: Pte, k: nat): (r: map<Slot, Pte>) {
    if k == 0 then flat else
    MapRange(flat, root, vpn, perm, k - 1)[Slot(root, vpn + k - 1) := perm.(ppn := perm.ppn + k - 1)]
  }

  lemma MapRangeNone(flat: map<Slot, Pte>, root: nat, vpn: nat, perm: Pte)
    ensures MapRange(flat, root, vpn, perm, 0) == flat
  {
  }

  lemma MapRangeStep(flat: map<Slot, Pte>, root: nat, vpn: nat, perm: Pte, k: nat)
    ensures MapRange(flat, root, vpn, perm, k + 1) ==
              MapRange(flat, root, vpn, perm, k)[Slot(root, vpn + k) := perm.(ppn := perm.ppn + k)]
    ensures Slot(root, vpn + k) in MapRange(flat, root, vpn, perm, k) <==> Slot(root, vpn + k) in flat
  {
    MapRangeAt(flat, root, vpn, perm, k);
  }

  lemma {:induction false} MapRangeAt(flat: map<Slot, Pte>, root: nat, vpn: nat, perm: Pte, k: nat)
    ensures forall s :: s in MapRange(flat, root, vpn, perm, k) <==>
                          s in flat || (s.root == root && vpn <= s.vpn < vpn + k)
    ensures forall s :: s in MapRange(flat, root, vpn, perm, k) ==>
              MapRange(flat, root, vpn, perm, k)[s] ==
              if s.root == root && vpn <= s.vpn < vpn + k then perm.(ppn := perm.ppn + s.vpn - vpn) else flat[s]
  {
    if k > 0 { MapRangeAt(flat, root, vpn, perm, k - 1); }
  }

  lemma GrewNone(tables: Tables, count: map<nat, nat>)
    ensures Grew(tables, tables, count, count)
  {
  }

  lemma GrewMore(a: Tables, b: Tables, c: Tables, ca: map<nat, nat>, cb: map<nat, nat>, cc: map<nat, nat>)
    requires Grew(a, b, ca, cb) && Grew(b, c, cb, cc)
    ensures Grew(a, c, ca, cc)
  {
  }

  /** A path depends only on the tables above its end. */
  lemma PathStable(was: Tables, now: Tables, sh: Shape, root: nat, vpn: nat, level: nat)
    requires Trees(was, sh) && IsRoot(was, sh, root) && level <= 2
    requires forall x :: x in was && sh.level[x] > level ==> x in now && now[x] == was[x]
    requires Path(was, root, vpn, level) != 0
    ensures Path(now, root, vpn, level) == Path(was, root, vpn, level)
    decreases 2 - level
  {
    if level < 2 {
      NoZero(was, sh);
      PathOk(was, sh, root, vpn, level + 1);
      PathStable(was, now, sh, root, vpn, level + 1);
    }
  }

  lemma DeadEnd(tables: Tables, sh: Shape, root: nat, vpn: nat, level: nat)
    requires Trees(tables, sh) && level <= 2 && Path(tables, root, vpn, level) == 0
    ensures Path(tables, root, vpn, 0) == 0
    decreases level
  {
    NoZero(tables, sh);
    if level > 0 { DeadEnd(tables, sh, root, vpn, level - 1); }
  }
}
