/**
 The user-level allocator of umalloc.c. Addresses count headers. The free list is a ring of blocks in address
 order that starts and ends at `base`, an empty block below the heap.
 */
module Malloc {
  import opened Counting

  /** A block's header; `ptr` is only meaningful while the block is free. */
  datatype Header = Header(ptr: nat, size: nat)

  type Memory = map<nat, Header>

  function Size(mem: Memory, a: nat): (n: nat) {
    if a in mem then mem[a].size else 0
  }

  function Ptr(mem: Memory, a: nat): (p: nat) {
    if a in mem then mem[a].ptr else 0
  }

  ghost predicate SameWord(mem: Memory, mem': Memory, a: nat) {
    (a in mem <==> a in mem') && (a in mem ==> mem'[a] == mem[a])
  }

  // ----- the free list

  function Succ(i: nat, n: nat): (r: nat) {
    if i + 1 < n then i + 1 else 0
  }

  /** Entry `i` points to the next, ends before it starts, and does not touch it; only `base` is empty. */
  ghost predicate Entry(mem: Memory, ring: seq<nat>, i: nat) {
    i < |ring| ==>
      && ring[i] in mem && Ptr(mem, ring[i]) == ring[Succ(i, |ring|)]
      && (Size(mem, ring[i]) == 0 <==> i == 0)
      && (i + 1 < |ring| ==> ring[i] + Size(mem, ring[i]) < ring[i + 1])
  }

  ghost predicate Ringed(mem: Memory, ring: seq<nat>, base: nat) {
    && ring != [] && ring[0] == base > 0
    && forall i: nat :: Entry(mem, ring, i)
  }

  lemma {:induction false} RingOrder(mem: Memory, ring: seq<nat>, base: nat, i: nat, j: nat)
    requires Ringed(mem, ring, base) && i < j < |ring|
    ensures ring[i] + Size(mem, ring[i]) < ring[j]
    decreases j
  {
    assert Entry(mem, ring, i) && Entry(mem, ring, j - 1);
    if i < j - 1 { RingOrder(mem, ring, base, i, j - 1); }
  }

  /** Where entry `k` is, or the way around to `base`. */
  ghost function At(ring: seq<nat>, k: nat): (a: nat)
    requires ring != []
  {
    if k < |ring| then ring[k] else ring[0]
  }

  /** Entry `j` is relinked to entry `k` and resized; the entries in between leave the ring. */
  lemma Relink(mem: Memory, ring: seq<nat>, base: nat, j: nat, k: nat, mem': Memory)
    requires Ringed(mem, ring, base) && j < k <= |ring|
    requires ring[j] in mem' && Ptr(mem', ring[j]) == At(ring, k) && (Size(mem', ring[j]) == 0 <==> j == 0)
    requires k < |ring| ==> ring[j] + Size(mem', ring[j]) < ring[k]
    requires forall i :: 0 <= i < j || k <= i < |ring| ==> SameWord(mem, mem', ring[i])
    ensures Ringed(mem', ring[..j + 1] + ring[k..], base)
  {
    var ring' := ring[..j + 1] + ring[k..];
    forall i: nat ensures Entry(mem', ring', i) {
      if i < j {
        assert Entry(mem, ring, i);
      } else if i > j {
        assert Entry(mem, ring, i - j - 1 + k);
      }
    }
  }

  /** A new entry `b` goes between entry `j` and entry `k`. */
  lemma Insert(mem: Memory, ring: seq<nat>, base: nat, j: nat, k: nat, b: nat, mem': Memory)
    requires Ringed(mem, ring, base) && j < k <= |ring|
    requires ring[j] in mem' && mem'[ring[j]] == Header(b, Size(mem, ring[j])) && ring[j] + Size(mem, ring[j]) < b
    requires b in mem' && Ptr(mem', b) == At(ring, k) && Size(mem', b) > 0
    requires k < |ring| ==> b + Size(mem', b) < ring[k]
    requires forall i :: 0 <= i < j || k <= i < |ring| ==> SameWord(mem, mem', ring[i])
    ensures Ringed(mem', ring[..j + 1] + [b] + ring[k..], base)
  {
    var ring' := ring[..j + 1] + [b] + ring[k..];
    assert Entry(mem, ring, j);
    forall i: nat ensures Entry(mem', ring', i) {
      if i < j {
        assert Entry(mem, ring, i);
      } else if i > j + 1 {
        assert Entry(mem, ring, i - j - 2 + k);
      }
    }
  }

  // ----- ownership of memory

  ghost predicate Inside(mem: Memory, a: nat, u: nat) {
    a <= u < a + Size(mem, a)
  }

  ghost predicate UnitOk(mem: Memory, blocks: set<nat>, owner: map<nat, nat>, u: nat) {
    u in owner ==> owner[u] in blocks && Inside(mem, owner[u], u)
  }

  ghost predicate Owns(mem: Memory, owner: map<nat, nat>, a: nat, u: nat) {
    Inside(mem, a, u) ==> u in owner && owner[u] == a
  }

  /** Every unit obtained from sbrk belongs to exactly one block, free or live. */
  ghost predicate Partition(mem: Memory, blocks: set<nat>, owner: map<nat, nat>) {
    && (forall a :: a in blocks ==> a in mem && Size(mem, a) > 0)
    && (forall u :: UnitOk(mem, blocks, owner, u))
    && (forall a, u :: a in blocks ==> Owns(mem, owner, a, u))
  }

  ghost function Blocks(ring: seq<nat>, live: map<nat, nat>, base: nat): (s: set<nat>) {
    (set a | a in ring && a != base) + live.Keys
  }

  /** The units of block `b` become part of block `a`. */
  ghost function Retarget(owner: map<nat, nat>, b: nat, a: nat): (r: map<nat, nat>)
    ensures r.Keys == owner.Keys
  {
    map u | u in owner :: if owner[u] == b then a else owner[u]
  }

  /** Joining a block with the one that starts where it ends. */
  lemma Join(mem: Memory, blocks: set<nat>, owner: map<nat, nat>, a: nat, b: nat, mem': Memory)
    requires Partition(mem, blocks, owner) && a in blocks && b in blocks && a + Size(mem, a) == b
    requires forall c :: c in blocks && c != a && c != b ==> c in mem' && Size(mem', c) == Size(mem, c)
    requires a in mem' && Size(mem', a) == Size(mem, a) + Size(mem, b)
    ensures Partition(mem', blocks - {b}, Retarget(owner, b, a))
  {
    var blocks', owner' := blocks - {b}, Retarget(owner, b, a);
    forall u ensures UnitOk(mem', blocks', owner', u) {
      assert UnitOk(mem, blocks, owner, u);
    }
    forall c, u | c in blocks' ensures Owns(mem', owner', c, u) {
      assert Owns(mem, owner, c, u) && Owns(mem, owner, b, u);
    }
  }

  /** The last `n` units of a block become the block `q`. */
  ghost function Carved(owner: map<nat, nat>, q: nat, n: nat): (r: map<nat, nat>)
    ensures r.Keys == owner.Keys
  {
    map u | u in owner :: if q <= u < q + n then q else owner[u]
  }

  lemma Split(mem: Memory, blocks: set<nat>, owner: map<nat, nat>, a: nat, q: nat, n: nat, mem': Memory)
    requires Partition(mem, blocks, owner) && a in blocks && 0 < n < Size(mem, a) && q + n == a + Size(mem, a)
    requires forall c :: c in blocks && c != a ==> c in mem' && Size(mem', c) == Size(mem, c)
    requires a in mem' && Size(mem', a) == Size(mem, a) - n && q in mem' && Size(mem', q) == n
    ensures q !in blocks && Partition(mem', blocks + {q}, Carved(owner, q, n))
  {
    var blocks', owner' := blocks + {q}, Carved(owner, q, n);
    assert Owns(mem, owner, a, q);
    assert q in blocks ==> Owns(mem, owner, q, q);
    forall u ensures UnitOk(mem', blocks', owner', u) {
      assert UnitOk(mem, blocks, owner, u) && Owns(mem, owner, a, u);
    }
    forall c, u | c in blocks' ensures Owns(mem', owner', c, u) {
      assert c in blocks ==> Owns(mem, owner, c, u);
      assert Owns(mem, owner, a, u);
    }
  }

  /** Sizes that do not change, and nothing else, decide who owns what. */
  lemma SameSizes(mem: Memory, blocks: set<nat>, owner: map<nat, nat>, mem': Memory)
    requires Partition(mem, blocks, owner)
    requires forall c :: c in blocks ==> c in mem' && Size(mem', c) == Size(mem, c)
    ensures Partition(mem', blocks, owner)
  {
    forall u ensures UnitOk(mem', blocks, owner, u) { assert UnitOk(mem, blocks, owner, u); }
    forall c, u | c in blocks ensures Owns(mem', owner, c, u) { assert Owns(mem, owner, c, u); }
  }

  ghost function Sizes(mem: Memory, blocks: set<nat>): (m: map<nat, nat>) {
    map a | a in blocks :: Size(mem, a)
  }

  ghost function UnitsOf(owner: map<nat, nat>, a: nat): (s: set<nat>) {
    set u | u in owner && owner[u] == a
  }

  lemma WithoutBlock(mem: Memory, blocks: set<nat>, owner: map<nat, nat>, a: nat)
    requires Partition(mem, blocks, owner) && a in blocks
    ensures Partition(mem, blocks - {a}, owner - UnitsOf(owner, a))
    ensures |owner| == |owner - UnitsOf(owner, a)| + Size(mem, a)
  {
    var owner' := owner - UnitsOf(owner, a);
    forall u ensures UnitOk(mem, blocks - {a}, owner', u) { assert UnitOk(mem, blocks, owner, u); }
    forall c, u | c in blocks - {a} ensures Owns(mem, owner', c, u) { assert Owns(mem, owner, c, u); }
    forall u: nat ensures u in UnitsOf(owner, a) <==> a <= u < a + Size(mem, a) {
      assert UnitOk(mem, blocks, owner, u) && Owns(mem, owner, a, u);
    }
    IntervalSize(UnitsOf(owner, a), a, Size(mem, a));
    assert owner.Keys == owner'.Keys + UnitsOf(owner, a);
  }

  /** The sizes of all blocks, free and live, add up to the units obtained. */
  lemma {:induction false} Conserved(mem: Memory, blocks: set<nat>, owner: map<nat, nat>)
    requires Partition(mem, blocks, owner)
    ensures Sum(Sizes(mem, blocks)) == |owner|
    decreases |blocks|
  {
    if blocks == {} {
      forall u ensures u !in owner { assert UnitOk(mem, blocks, owner, u); }
      assert owner.Keys == {};
    } else {
      var a :| a in blocks;
      WithoutBlock(mem, blocks, owner, a);
      hide Partition;
      Conserved(mem, blocks - {a}, owner - UnitsOf(owner, a));
      SumWithout(Sizes(mem, blocks), a);
      assert Sizes(mem, blocks) - {a} == Sizes(mem, blocks - {a});
    }
  }

  lemma {:induction false} IntervalSize(s: set<nat>, a: nat, n: nat)
    requires forall u: nat :: u in s <==> a <= u < a + n
    ensures |s| == n
  {
    if n == 0 {
      assert s == {};
    } else {
      IntervalSize(s - {a + n - 1}, a, n - 1);
    }
  }

  // ----- the allocator

  /** The parts of the heap agree; `top` is where the memory that the allocator takes itself to have ends. */
  ghost predicate HeapOk(mem: Memory, freep: nat, ring: seq<nat>, live: map<nat, nat>, owner: map<nat, nat>,
                         base: nat, top: nat) {
    && base > 0
    && (freep == 0 ==> ring == [] && live == map[])
    && (freep != 0 ==> Ringed(mem, ring, base) && freep in ring)
    && Partition(mem, Blocks(ring, live, base), owner)
    && (forall a :: a in live ==> a !in ring && a != base && a in mem && Size(mem, a) == live[a])
    && (forall u :: u in owner ==> base < u < top)
  }

  /** The memory of every live block holds what it did. */
  ghost predicate Untouched(mem: Memory, mem': Memory, live: map<nat, nat>) {
    forall a, u: nat :: a in live && a <= u < a + live[a] ==> SameWord(mem, mem', u)
  }

  lemma UntouchedBoth(mem: Memory, mid: Memory, mem': Memory, live: map<nat, nat>)
    requires Untouched(mem, mid, live) && Untouched(mid, mem', live)
    ensures Untouched(mem, mem', live)
  {
    forall a, u: nat | a in live && a <= u < a + live[a] ensures SameWord(mem, mem', u) {
      assert SameWord(mem, mid, u) && SameWord(mid, mem', u);
    }
  }

  /** The distance from entry `i` forward to entry `f`. */
  function Ahead(i: nat, f: nat, n: nat): (d: nat)
  {
    if i <= f then f - i else if i < n then n - i + f else 0
  }

  /** The ring with entries `j + 1` to `k` replaced by `mid`. */
  ghost function Spliced(ring: seq<nat>, j: nat, mid: seq<nat>, k: nat): (r: seq<nat>)
    requires j < k <= |ring|
  {
    ring[..j + 1] + mid + ring[k..]
  }

  /** What is left of the ring is everything but the entries taken out. */
  lemma SplicedHas(mem: Memory, ring: seq<nat>, base: nat, j: nat, mid: seq<nat>, k: nat, a: nat)
    requires Ringed(mem, ring, base) && j < k <= |ring|
    ensures a in Spliced(ring, j, mid, k) <==> (a in ring && a !in ring[j + 1..k]) || a in mid
  {
    if a in ring {
      var i :| 0 <= i < |ring| && ring[i] == a;
      if i <= j { assert ring[..j + 1][i] == a; }
      if k <= i { assert ring[k..][i - k] == a; }
      if j < i < k { assert ring[j + 1..k][i - j - 1] == a; }
    }
    if a in ring[j + 1..k] {
      var i :| j + 1 <= i < k && ring[i] == a;
      forall i' | 0 <= i' < |ring| && ring[i'] == a ensures i' == i {
        if i' < i { RingOrder(mem, ring, base, i', i); }
        if i < i' { RingOrder(mem, ring, base, i, i'); }
      }
      assert a !in ring[..j + 1] && a !in ring[k..];
    }
    assert a in Spliced(ring, j, mid, k) <==> a in ring[..j + 1] || a in mid || a in ring[k..];
  }

  // ----- free

  ghost predicate Place(ring: seq<nat>, j: nat, bp: nat) {
    j < |ring| && ring[j] < bp && (j + 1 < |ring| ==> bp < ring[j + 1])
  }

  /** free after its first if: `bp` is joined with, or linked to, what follows. */
  function Hooked(mem: Memory, p: nat, bp: nat): (r: Memory) {
    var next := Ptr(mem, p);
    mem[bp := if bp + Size(mem, bp) == next then Header(Ptr(mem, next), Size(mem, bp) + Size(mem, next))
              else Header(next, Size(mem, bp))]
  }

  /** free after its second if: `p` is joined with, or linked to, `bp`. */
  function Merged(mem: Memory, p: nat, bp: nat): (r: Memory) {
    mem[p := if p + Size(mem, p) == bp then Header(Ptr(mem, bp), Size(mem, p) + Size(mem, bp))
             else Header(bp, Size(mem, p))]
  }

  ghost function FreedRing(mem: Memory, ring: seq<nat>, j: nat, bp: nat): (r: seq<nat>)
    requires j < |ring|
  {
    var right := j + 1 < |ring| && bp + Size(mem, bp) == ring[j + 1];
    var left := ring[j] + Size(mem, ring[j]) == bp;
    Spliced(ring, j, if left then [] else [bp], if right then j + 2 else j + 1)
  }

  ghost function FreedOwner(mem: Memory, ring: seq<nat>, j: nat, bp: nat, owner: map<nat, nat>): (r: map<nat, nat>)
    requires j < |ring|
    ensures r.Keys == owner.Keys
  {
    var joined := if j + 1 < |ring| && bp + Size(mem, bp) == ring[j + 1] then Retarget(owner, ring[j + 1], bp)
                  else owner;
    if ring[j] + Size(mem, ring[j]) == bp then Retarget(joined, bp, ring[j]) else joined
  }

  /** A live block overlaps no free one: it fits between the entries around its place. */
  lemma Fits(mem: Memory, freep: nat, ring: seq<nat>, live: map<nat, nat>, owner: map<nat, nat>, base: nat, top: nat,
             bp: nat, j: nat)
    requires HeapOk(mem, freep, ring, live, owner, base, top) && bp in live && freep != 0 && Place(ring, j, bp)
    ensures ring[j] + Size(mem, ring[j]) <= bp && Size(mem, bp) > 0 && base < bp
    ensures j + 1 < |ring| ==> bp + Size(mem, bp) <= ring[j + 1]
    ensures ring[j] == base ==> ring[j] + Size(mem, ring[j]) < bp
  {
    var blocks := Blocks(ring, live, base);
    var p := ring[j];
    assert bp in blocks && Owns(mem, owner, bp, bp);
    assert Entry(mem, ring, j) && Entry(mem, ring, 0);
    if j > 0 {
      RingOrder(mem, ring, base, 0, j);
      assert p in blocks && Owns(mem, owner, p, bp);
    }
    if j + 1 < |ring| {
      var next := ring[j + 1];
      RingOrder(mem, ring, base, 0, j + 1);
      assert next in blocks && Size(mem, next) > 0;
      assert Owns(mem, owner, bp, next) && Owns(mem, owner, next, next);
    }
  }

  lemma FreeRing(mem: Memory, freep: nat, ring: seq<nat>, live: map<nat, nat>, owner: map<nat, nat>, base: nat,
                 top: nat,
                 bp: nat, j: nat)
    requires HeapOk(mem, freep, ring, live, owner, base, top) && bp in live && freep != 0 && Place(ring, j, bp)
    ensures Ringed(Merged(Hooked(mem, ring[j], bp), ring[j], bp), FreedRing(mem, ring, j, bp), base)
    ensures ring[j] in FreedRing(mem, ring, j, bp)
  {
    Fits(mem, freep, ring, live, owner, base, top, bp, j);
    hide Partition;
    var p := ring[j];
    var mem' := Merged(Hooked(mem, p, bp), p, bp);
    assert Entry(mem, ring, j) && Entry(mem, ring, j + 1);
    var k := if j + 1 < |ring| && bp + Size(mem, bp) == ring[j + 1] then j + 2 else j + 1;
    forall i | 0 <= i < j || k <= i < |ring| ensures SameWord(mem, mem', ring[i]) {
      if i < j { RingOrder(mem, ring, base, i, j); } else { RingOrder(mem, ring, base, j, i); }
    }
    if p + Size(mem, p) == bp {
      Relink(mem, ring, base, j, k, mem');
      assert ring[..j + 1] + [] + ring[k..] == ring[..j + 1] + ring[k..];
    } else {
      Insert(mem, ring, base, j, k, bp, mem');
    }
    assert FreedRing(mem, ring, j, bp)[j] == p;
  }

  lemma FreeOwners(mem: Memory, freep: nat, ring: seq<nat>, live: map<nat, nat>, owner: map<nat, nat>, base: nat,
                   top: nat,
                   bp: nat, j: nat)
    requires HeapOk(mem, freep, ring, live, owner, base, top) && bp in live && freep != 0 && Place(ring, j, bp)
    ensures Partition(Merged(Hooked(mem, ring[j], bp), ring[j], bp),
                      Blocks(FreedRing(mem, ring, j, bp), live - {bp}, base), FreedOwner(mem, ring, j, bp, owner))
  {
    Fits(mem, freep, ring, live, owner, base, top, bp, j);
    hide Partition;
    var p := ring[j];
    var next := Ptr(mem, p);
    var mem1 := Hooked(mem, p, bp);
    var mem2 := Merged(mem1, p, bp);
    var blocks := Blocks(ring, live, base);
    assert Entry(mem, ring, j) && Entry(mem, ring, 0);
    var right, left := bp + Size(mem, bp) == next, p + Size(mem, p) == bp;
    if right { RingOrder(mem, ring, base, 0, j + 1); Join(mem, blocks, owner, bp, next, mem1); }
    else { SameSizes(mem, blocks, owner, mem1); }
    var blocks1 := if right then blocks - {next} else blocks;
    var owner1 := if right then Retarget(owner, next, bp) else owner;
    if left { Join(mem1, blocks1, owner1, p, bp, mem2); } else { SameSizes(mem1, blocks1, owner1, mem2); }
    FreedBlocks(mem, ring, live, base, j, bp);
    assert Blocks(FreedRing(mem, ring, j, bp), live - {bp}, base) == if left then blocks1 - {bp} else blocks1;
    assert FreedOwner(mem, ring, j, bp, owner) == if left then Retarget(owner1, bp, p) else owner1;
  }

  lemma FreedBlocks(mem: Memory, ring: seq<nat>, live: map<nat, nat>, base: nat, j: nat, bp: nat)
    requires Ringed(mem, ring, base) && j < |ring| && bp in live && bp != base && bp !in ring
    requires forall a :: a in live ==> a !in ring && a != base
    ensures Blocks(FreedRing(mem, ring, j, bp), live - {bp}, base)
         == Blocks(ring, live, base)
            - (if j + 1 < |ring| && bp + Size(mem, bp) == ring[j + 1] then {ring[j + 1]} else {})
            - if ring[j] + Size(mem, ring[j]) == bp then {bp} else {}
  {
    var right := j + 1 < |ring| && bp + Size(mem, bp) == ring[j + 1];
    var left := ring[j] + Size(mem, ring[j]) == bp;
    var mid, k := if left then [] else [bp], if right then j + 2 else j + 1;
    assert ring[j + 1..k] == if right then [ring[j + 1]] else [];
    forall a ensures a in FreedRing(mem, ring, j, bp)
                <==> (a in ring && !(right && a == ring[j + 1])) || (!left && a == bp) {
      SplicedHas(mem, ring, base, j, mid, k, a);
    }
  }

  lemma FreeOk(mem: Memory, freep: nat, ring: seq<nat>, live: map<nat, nat>, owner: map<nat, nat>, base: nat, top: nat,
               bp: nat, j: nat)
    requires HeapOk(mem, freep, ring, live, owner, base, top) && bp in live && freep != 0 && Place(ring, j, bp)
    ensures var mem', owner' := Merged(Hooked(mem, ring[j], bp), ring[j], bp), FreedOwner(mem, ring, j, bp, owner);
            && HeapOk(mem', ring[j], FreedRing(mem, ring, j, bp), live - {bp}, owner', base, top)
            && Untouched(mem, mem', live - {bp}) && ring[j] != 0
            && bp in owner && owner'[bp] in FreedRing(mem, ring, j, bp) && Size(mem', owner'[bp]) >= Size(mem, bp)
  {
    FreeRing(mem, freep, ring, live, owner, base, top, bp, j);
    FreeOwners(mem, freep, ring, live, owner, base, top, bp, j);
    var p := ring[j];
    assert p != base ==> p in Blocks(ring, live, base) && Size(mem, p) > 0 && Owns(mem, owner, p, p);
    assert bp in Blocks(ring, live, base) && Owns(mem, owner, bp, bp);
    forall a, u: nat | a in live - {bp} && a <= u < a + live[a]
      ensures SameWord(mem, Merged(Hooked(mem, p, bp), p, bp), u) {
      assert a in Blocks(ring, live, base) && Owns(mem, owner, a, u);
    }
    if j > 0 { RingOrder(mem, ring, base, 0, j); }
    hide Partition, Ringed, Place;
    assert !(p + Size(mem, p) == bp) ==> FreedRing(mem, ring, j, bp)[j + 1] == bp;
    forall a | a in live - {bp} ensures a !in FreedRing(mem, ring, j, bp) {
    }
  }

  // ----- malloc

  ghost predicate NoFit(mem: Memory, ring: seq<nat>, n: nat) {
    forall i :: 0 <= i < |ring| ==> Size(mem, ring[i]) < n
  }

  /** A block of exactly the right size leaves the ring. */
  lemma TakeWhole(mem: Memory, freep: nat, ring: seq<nat>, live: map<nat, nat>, owner: map<nat, nat>, base: nat,
                  top: nat,
                  i: nat)
    requires HeapOk(mem, freep, ring, live, owner, base, top) && freep != 0 && i + 1 < |ring|
    ensures var prev, p := ring[i], ring[i + 1];
            var mem' := mem[prev := Header(Ptr(mem, p), Size(mem, prev))];
            && HeapOk(mem', prev, Spliced(ring, i, [], i + 2), live[p := Size(mem, p)], owner, base, top)
            && Untouched(mem, mem', live) && p !in live
  {
    var prev, p := ring[i], ring[i + 1];
    var mem' := mem[prev := Header(Ptr(mem, p), Size(mem, prev))];
    var ring' := Spliced(ring, i, [], i + 2);
    var blocks := Blocks(ring, live, base);
    RingOrder(mem, ring, base, 0, i + 1);
    assert Entry(mem, ring, i) && Entry(mem, ring, i + 1);
    forall k | 0 <= k < i || i + 2 <= k < |ring| ensures SameWord(mem, mem', ring[k]) {
      if k < i { RingOrder(mem, ring, base, k, i); } else { RingOrder(mem, ring, base, i, k); }
    }
    Relink(mem, ring, base, i, i + 2, mem');
    assert ring[..i + 1] + [] + ring[i + 2..] == ring[..i + 1] + ring[i + 2..];
    assert ring[i + 1..i + 2] == [p];
    forall a ensures a in ring' <==> a in ring && a != p { SplicedHas(mem, ring, base, i, [], i + 2, a); }
    assert Blocks(ring', live[p := Size(mem, p)], base) == blocks;
    SameSizes(mem, blocks, owner, mem');
    assert prev != base ==> prev in blocks && Size(mem, prev) > 0 && Owns(mem, owner, prev, prev);
    forall a, u: nat | a in live && a <= u < a + live[a] ensures SameWord(mem, mem', u) {
      assert a in blocks && Owns(mem, owner, a, u);
    }
    assert ring'[i] == prev;
    hide Partition, Ringed;
  }

  /** The tail of a larger block is split off. */
  lemma TakeTail(mem: Memory, freep: nat, ring: seq<nat>, live: map<nat, nat>, owner: map<nat, nat>, base: nat,
                 top: nat,
                 i: nat, n: nat)
    requires HeapOk(mem, freep, ring, live, owner, base, top) && freep != 0
    requires 0 < i < |ring| && 0 < n < Size(mem, ring[i])
    ensures var p := ring[i];
            var q := p + (Size(mem, p) - n);
            var mem' := mem[p := Header(Ptr(mem, p), Size(mem, p) - n)][q := Header(Ptr(mem, q), n)];
            && HeapOk(mem', ring[i - 1], ring, live[q := n], Carved(owner, q, n), base, top)
            && Untouched(mem, mem', live) && q !in live
  {
    var p := ring[i];
    var q: nat := p + (Size(mem, p) - n);
    var mem' := mem[p := Header(Ptr(mem, p), Size(mem, p) - n)][q := Header(Ptr(mem, q), n)];
    var blocks := Blocks(ring, live, base);
    RingOrder(mem, ring, base, 0, i);
    assert Entry(mem, ring, i) && p in blocks;
    TailTaken(mem, blocks, owner, p, q, n, mem');
    assert Blocks(ring, live[q := n], base) == blocks + {q};
    forall a, u: nat | a in live && a <= u < a + live[a] ensures SameWord(mem, mem', u) {
      assert a in blocks && Owns(mem, owner, a, u);
    }
    assert base < q by { assert UnitOk(mem, blocks, owner, q); }
    hide Partition;
    TailRing(mem, ring, base, i, q, n, mem');
    hide Ringed;
  }

  lemma TailRing(mem: Memory, ring: seq<nat>, base: nat, i: nat, q: nat, n: nat, mem': Memory)
    requires Ringed(mem, ring, base) && 0 < i < |ring| && n < Size(mem, ring[i]) && q !in ring
    requires mem' == mem[ring[i] := Header(Ptr(mem, ring[i]), Size(mem, ring[i]) - n)][q := Header(Ptr(mem, q), n)]
    ensures Ringed(mem', ring, base) && ring[i - 1] in ring && ring[i - 1] != 0
  {
    assert Entry(mem, ring, i);
    forall k | 0 <= k < i || i + 1 <= k < |ring| ensures SameWord(mem, mem', ring[k]) {
      if k < i { RingOrder(mem, ring, base, k, i); } else { RingOrder(mem, ring, base, i, k); }
    }
    Relink(mem, ring, base, i, i + 1, mem');
    assert ring[..i + 1] + ring[i + 1..] == ring;
    if 1 < i { RingOrder(mem, ring, base, 0, i - 1); }
  }

  lemma TailTaken(mem: Memory, blocks: set<nat>, owner: map<nat, nat>, p: nat, q: nat, n: nat, mem': Memory)
    requires Partition(mem, blocks, owner) && p in blocks && 0 < n < Size(mem, p) && q + n == p + Size(mem, p)
    requires mem' == mem[p := Header(Ptr(mem, p), Size(mem, p) - n)][q := Header(Ptr(mem, q), n)]
    ensures q !in blocks && Partition(mem', blocks + {q}, Carved(owner, q, n))
    ensures p in owner && owner[p] == p && q in owner && owner[q] == p
  {
    assert Owns(mem, owner, p, p) && Owns(mem, owner, p, q);
    assert q in blocks ==> Owns(mem, owner, q, q);
    Split(mem, blocks, owner, p, q, n, mem');
  }

  ghost function Units(at: nat, n: nat): (s: set<nat>)
    ensures forall u: nat :: u in s <==> at <= u < at + n
  {
    if n == 0 then {} else Units(at, n - 1) + {at + n - 1}
  }

  ghost function Granted(owner: map<nat, nat>, at: nat, n: nat): (r: map<nat, nat>) {
    map u | u in owner.Keys + Units(at, n) :: if u in Units(at, n) then at else owner[u]
  }

  /** Fresh memory from sbrk, seen as one live block. */
  lemma Grow(mem: Memory, freep: nat, ring: seq<nat>, live: map<nat, nat>, owner: map<nat, nat>, base: nat, top: nat,
             at: nat, n: nat)
    requires HeapOk(mem, freep, ring, live, owner, base, top) && freep != 0 && top <= at && base < at && n > 0
    ensures var mem' := mem[at := Header(Ptr(mem, at), n)];
            && HeapOk(mem', freep, ring, live[at := n], Granted(owner, at, n), base, at + n)
            && Untouched(mem, mem', live) && at !in live
  {
    var mem', owner' := mem[at := Header(Ptr(mem, at), n)], Granted(owner, at, n);
    var blocks := Blocks(ring, live, base);
    forall a, u: nat | a in blocks && Inside(mem, a, u) ensures a < at && u < at {
      assert Owns(mem, owner, a, u) && Owns(mem, owner, a, a);
    }
    forall a | a in blocks ensures a < at { assert Inside(mem, a, a); }
    assert Blocks(ring, live[at := n], base) == blocks + {at};
    forall u ensures UnitOk(mem', blocks + {at}, owner', u) { assert UnitOk(mem, blocks, owner, u); }
    forall a, u | a in blocks + {at} ensures Owns(mem', owner', a, u) {
      if a != at { assert Owns(mem, owner, a, u); }
    }
    forall i: nat ensures Entry(mem', ring, i) { assert Entry(mem, ring, i); }
    forall a, u: nat | a in live && a <= u < a + live[a] ensures SameWord(mem, mem', u) { assert Inside(mem, a, u); }
  }

  /** free's search can only stop at the last entry below `bp`. */
  lemma LastBelow(mem: Memory, ring: seq<nat>, base: nat, bp: nat) returns (t: nat)
    requires Ringed(mem, ring, base) && base < bp && bp !in ring
    ensures Place(ring, t, bp)
  {
    t := 0;
    while t + 1 < |ring| && ring[t + 1] < bp
      invariant t < |ring| && ring[t] < bp
    {
      t := t + 1;
    }
  }

  /** Only there does one of its two tests hold. */
  lemma SearchStep(mem: Memory, ring: seq<nat>, base: nat, bp: nat, t: nat, j: nat)
    requires Ringed(mem, ring, base) && base < bp && bp !in ring && Place(ring, t, bp) && j < |ring|
    ensures var p := ring[j];
            var next := Ptr(mem, p);
            (bp > p && bp < next) || (p >= next && (bp > p || bp < next)) <==> j == t
  {
    assert Entry(mem, ring, j);
    if j < t { RingOrder(mem, ring, base, j, t); }
    if j + 1 < t { RingOrder(mem, ring, base, j + 1, t); }
    if t < j { RingOrder(mem, ring, base, t, j); }
    if t + 1 < j { RingOrder(mem, ring, base, t + 1, j); }
    if 0 < j { RingOrder(mem, ring, base, 0, j); }
  }

  function UnitsFor(nbytes: nat): (n: nat)
    ensures n > 0 && (n - 1) * 16 >= nbytes && (n - 1) * 16 < nbytes + 16
  {
    (nbytes + 16 - 1) / 16 + 1
  }

  function AtLeast4096(n: nat): (r: nat)
    ensures r >= 4096 && r >= n && (r == 4096 || r == n)
  {
    if n < 4096 then 4096 else n
  }

  const UINT: nat := 0x1_0000_0000

  /** The largest request whose size in bytes sbrk's int can hold. */
  const MAX_REQUEST: nat := 0x8000_0000 - 32

  /** A number of bytes as an int. */
  function IntOf(bytes: nat): (n: int) {
    if bytes % UINT < 0x8000_0000 then bytes % UINT else bytes % UINT - UINT
  }

  /** How many units morecore's call of sbrk asks for when it wants `nu`. */
  function Asked(nu: nat): (n: int) {
    IntOf(16 * nu) / 16
  }

  lemma AskedIs(nu: nat)
    requires nu <= 0x1000_0001
    ensures Asked(nu) == if nu < 0x800_0000 then nu else nu - 0x1000_0000
  {
  }

  lemma RequestFits(nbytes: nat)
    requires nbytes < UINT
    ensures UnitsFor(nbytes) <= 0x1000_0001
    ensures UnitsFor(nbytes) < 0x800_0000 <==> nbytes <= MAX_REQUEST
  {
  }

  /** Where sbrk leaves the break; it does not shrink a process below nothing. */
  function Moved(brk: nat, n: int): (r: nat)
    ensures r != brk + n ==> n < 0 && brk < -n && r == brk
  {
    if brk + n < 0 then brk else brk + n
  }

  /** sbrk asked for what `nu` units are as an int covers them exactly if that is not less. */
  lemma AskedCovers(brk: nat, nu: nat)
    requires nu <= 0x1000_0001
    ensures brk + nu <= Moved(brk, Asked(nu)) <==> nu < 0x800_0000
    ensures nu < 0x800_0000 ==> Moved(brk, Asked(nu)) == brk + nu
  {
    AskedIs(nu);
    hide Asked;
  }

  /** Whether sbrk succeeds for a block of `n` units: a negative amount, or none, it always gives. */
  predicate SbrkGives(n: nat, room: bool) {
    room || Asked(AtLeast4096(n)) <= 0
  }

  /** The break, the end of the heap and its units, unchanged or after sbrk was asked for a block of `n` units. */
  ghost predicate Extent(grown: bool, n: nat, room: bool, brk: nat, top: nat, units: set<nat>, brk': nat, top': nat,
                         units': set<nat>) {
    var nu := AtLeast4096(n);
    if grown then
      && SbrkGives(n, room) && brk' == Moved(brk, Asked(nu)) && top' == brk + nu && units' == units + Units(brk, nu)
    else brk' == brk && top' == top && units' == units
  }

  lemma ExtentNone(n: nat, room: bool, brk: nat, top: nat, units: set<nat>)
    ensures Extent(false, n, room, brk, top, units, brk, top, units)
  {
  }

  lemma ExtentFits(nbytes: nat, room: bool, brk: nat, top: nat, units: set<nat>, brk': nat, top': nat,
                   units': set<nat>)
    requires nbytes < UINT && Extent(true, UnitsFor(nbytes), room, brk, top, units, brk', top', units')
    ensures top' <= brk' <==> nbytes <= MAX_REQUEST
  {
    RequestFits(nbytes);
    AskedCovers(brk, AtLeast4096(UnitsFor(nbytes)));
  }

  /** Live blocks are disjoint and inside the memory the allocator takes itself to have. */
  lemma LiveApart(mem: Memory, freep: nat, ring: seq<nat>, live: map<nat, nat>, owner: map<nat, nat>, base: nat,
                  top: nat, a: nat, b: nat)
    requires HeapOk(mem, freep, ring, live, owner, base, top) && a in live && b in live && a != b
    ensures a + live[a] <= b || b + live[b] <= a
    ensures live[a] > 0 && base < a && a + live[a] <= top
  {
    var u := if a < b then b else a;
    assert Owns(mem, owner, a, u) && Owns(mem, owner, b, u);
    assert a in Blocks(ring, live, base);
    LiveInside(mem, freep, ring, live, owner, base, top, a);
  }

  lemma LiveInside(mem: Memory, freep: nat, ring: seq<nat>, live: map<nat, nat>, owner: map<nat, nat>, base: nat,
                   top: nat, a: nat)
    requires HeapOk(mem, freep, ring, live, owner, base, top) && a in live
    ensures live[a] > 0 && base < a && a + live[a] <= top && a in owner && a + live[a] - 1 in owner
  {
    assert a in Blocks(ring, live, base);
    assert Owns(mem, owner, a, a) && Owns(mem, owner, a, a + live[a] - 1);
  }

  /** The entries between `f` and `q`, which the search has passed, are too small. */
  ghost predicate Scanned(mem: Memory, ring: seq<nat>, n: nat, f: nat, q: nat) {
    && f < |ring| && q < |ring|
    && forall k :: 0 <= k < |ring| && Ahead(k, f, |ring|) > Ahead(q, f, |ring|) ==> Size(mem, ring[k]) < n
  }

  /** An entry that fits is still ahead. */
  ghost predicate FitAhead(mem: Memory, ring: seq<nat>, n: nat, f: nat, q: nat, w: nat) {
    && f < |ring| && q < |ring| && w < |ring|
    && Size(mem, ring[w]) >= n && Ahead(w, f, |ring|) <= Ahead(q, f, |ring|)
  }

  /** malloc's search: `p` is the entry after `prev`, and the lap so far, from `freep`, found nothing. */
  ghost predicate Searching(mem: Memory, ring: seq<nat>, base: nat, freep: nat, n: nat, f: nat, i: nat, prev: nat,
                            p: nat) {
    && Ringed(mem, ring, base) && f < |ring| && ring[f] == freep && i < |ring| && ring[i] == prev
    && p == ring[Succ(i, |ring|)] && Scanned(mem, ring, n, f, Succ(i, |ring|))
  }

  lemma LapStart(mem: Memory, ring: seq<nat>, base: nat, n: nat, f: nat, w: nat)
    requires Ringed(mem, ring, base) && f < |ring|
    ensures Searching(mem, ring, base, ring[f], n, f, f, ring[f], Ptr(mem, ring[f]))
    ensures w < |ring| && Size(mem, ring[w]) >= n ==> FitAhead(mem, ring, n, f, Succ(f, |ring|), w)
  {
    assert Entry(mem, ring, f);
  }

  /** One step of the search past `p`: the lap ends where it began, with nothing that fits. */
  lemma LapStep(mem: Memory, ring: seq<nat>, base: nat, freep: nat, n: nat, f: nat, i: nat, prev: nat, p: nat, w: nat)
    requires Searching(mem, ring, base, freep, n, f, i, prev, p) && n > 0
    ensures freep != 0 && f < |ring|
    ensures Size(mem, p) >= n ==> i + 1 < |ring| && ring[i] == prev && ring[i + 1] == p && !NoFit(mem, ring, n)
    ensures var q := Succ(i, |ring|);
            && q < |ring| && Succ(q, |ring|) < |ring|
            && (Size(mem, p) < n && p == freep ==> NoFit(mem, ring, n) && !FitAhead(mem, ring, n, f, q, w))
            && (Size(mem, p) < n && p != freep ==>
                  && Searching(mem, ring, base, freep, n, f, q, p, Ptr(mem, p))
                  && Ahead(Succ(q, |ring|), f, |ring|) < Ahead(q, f, |ring|)
                  && (FitAhead(mem, ring, n, f, q, w) ==> FitAhead(mem, ring, n, f, Succ(q, |ring|), w)))
  {
    var q := Succ(i, |ring|);
    assert Entry(mem, ring, q) && Entry(mem, ring, 0);
    if q < f { RingOrder(mem, ring, base, q, f); }
    if f < q { RingOrder(mem, ring, base, f, q); }
    if 0 < f { RingOrder(mem, ring, base, 0, f); }
    hide Ringed;
    if Size(mem, p) < n && q != f {
      var next := Succ(q, |ring|);
      forall k | 0 <= k < |ring| && Ahead(k, f, |ring|) > Ahead(next, f, |ring|) ensures Size(mem, ring[k]) < n {
        if k != q { assert Ahead(k, f, |ring|) > Ahead(q, f, |ring|); }
      }
    }
  }

  lemma LiveBlock(mem: Memory, freep: nat, ring: seq<nat>, live: map<nat, nat>, owner: map<nat, nat>, base: nat,
                  top: nat,
                  bp: nat)
    requires HeapOk(mem, freep, ring, live, owner, base, top) && bp in live
    ensures freep != 0 && Ringed(mem, ring, base) && freep in ring
    ensures bp !in ring && base < bp && Size(mem, bp) == live[bp]
  {
    assert bp in Blocks(ring, live, base) && Owns(mem, owner, bp, bp);
  }

  lemma RingOf(mem: Memory, freep: nat, ring: seq<nat>, live: map<nat, nat>, owner: map<nat, nat>, base: nat, top: nat)
    requires HeapOk(mem, freep, ring, live, owner, base, top) && freep != 0
    ensures Ringed(mem, ring, base) && freep in ring
  {
  }

  lemma IndexOf(ring: seq<nat>, a: nat) returns (i: nat)
    requires a in ring
    ensures i < |ring| && ring[i] == a
  {
    i :| 0 <= i < |ring| && ring[i] == a;
  }

  /** The first malloc sets up a free list of `base` alone. */
  lemma FirstUse(mem: Memory, ring: seq<nat>, live: map<nat, nat>, owner: map<nat, nat>, base: nat, top: nat)
    requires HeapOk(mem, 0, ring, live, owner, base, top)
    ensures HeapOk(mem[base := Header(base, 0)], base, [base], live, owner, base, top)
  {
    var mem' := mem[base := Header(base, 0)];
    forall i: nat ensures Entry(mem', [base], i) {}
    assert Blocks(ring, live, base) == {} == Blocks([base], live, base);
    SameSizes(mem, {}, owner, mem');
  }

  class Heap {
    const base: nat
    var mem: Memory
    var freep: nat
    var brk: nat              // the end of the process's memory, as sbrk reports it
    ghost var ring: seq<nat>
    ghost var live: map<nat, nat>
    ghost var owner: map<nat, nat>
    ghost var top: nat

    /** The free list and the blocks are consistent among themselves. */
    ghost predicate Shaped()
      reads this
    {
      HeapOk(mem, freep, ring, live, owner, base, top) && base < top
    }

    /** And sbrk has given all the memory they are in. */
    ghost predicate Valid()
      reads this
    {
      Shaped() && top <= brk
    }

    constructor (base: nat, brk: nat)
      requires 0 < base < brk
      ensures Valid() && live == map[] && owner == map[] && this.base == base && this.brk == brk && freep == 0
    {
      this.base, this.brk, mem, freep := base, brk, map[], 0;
      ring, live, owner, top := [], map[], map[], base + 1;
    }

    /** sbrk of `n` units; `room` says whether the kernel has them. It returns where the break was. */
    method Sbrk(n: int, room: bool) returns (ok: bool, at: nat)
      modifies this`brk
      ensures ok <==> n <= 0 || room
      ensures at == old(brk) && brk == if ok then Moved(old(brk), n) else old(brk)
      ensures n >= 0 && old(Valid()) ==> Valid()
    {
      at := brk;
      if n > 0 && !room { return false, at; }
      brk := Moved(brk, n);
      ok := true;
    }

    method FindPlace(bp: nat) returns (p: nat, ghost j: nat)
      requires freep != 0 && Ringed(mem, ring, base) && freep in ring && bp !in ring && base < bp
      ensures Place(ring, j, bp) && p == ring[j]
      ensures p in ring && p < bp && forall a :: a in ring && a < bp ==> a <= p
    {
      ghost var t := LastBelow(mem, ring, base, bp);
      p := freep;
      j :| 0 <= j < |ring| && ring[j] == p;
      assert Entry(mem, ring, j);
      while !(bp > p && bp < mem[p].ptr)
        invariant j < |ring| && ring[j] == p && Entry(mem, ring, j)
        decreases Ahead(j, t, |ring|)
      {
        SearchStep(mem, ring, base, bp, t, j);
        if p >= mem[p].ptr && (bp > p || bp < mem[p].ptr) { break; }
        p, j := mem[p].ptr, Succ(j, |ring|);
        assert Entry(mem, ring, j);
      }
      SearchStep(mem, ring, base, bp, t, j);
      forall a | a in ring && a < bp ensures a <= p {
        var k :| 0 <= k < |ring| && ring[k] == a;
        if k < j { RingOrder(mem, ring, base, k, j); }
        if j + 1 < k { RingOrder(mem, ring, base, j + 1, k); }
      }
    }

    /** The block goes back to the free list, joined with its neighbours; no other live block is touched. */
    method Free(ap: nat)
      requires Shaped() && ap > 0 && ap - 1 in live
      modifies this
      ensures Shaped() && (Valid() <==> old(Valid()))
      ensures live == old(live) - {ap - 1} && owner.Keys == old(owner).Keys && top == old(top) && brk == old(brk)
      ensures Untouched(old(mem), mem, live) && freep != 0
      ensures ap - 1 in owner && owner[ap - 1] in ring && Size(mem, owner[ap - 1]) >= old(live)[ap - 1]
    {
      hide HeapOk, Ringed, Place, Untouched, FreedRing, FreedOwner, Merged, Hooked;
      var bp := ap - 1;
      LiveBlock(mem, freep, ring, live, owner, base, top, bp);
      var p; ghost var j;
      p, j := FindPlace(bp);
      FreeOk(mem, freep, ring, live, owner, base, top, bp, j);
      ring, owner, live := FreedRing(mem, ring, j, bp), FreedOwner(mem, ring, j, bp, owner), live - {bp};
      Coalesce(p, bp);
      freep := p;
    }

    /** The two ifs of free. */
    method Coalesce(p: nat, bp: nat)
      modifies this`mem
      ensures mem == Merged(Hooked(old(mem), p, bp), p, bp)
    {
      if bp + Size(mem, bp) == Ptr(mem, p) {
        mem := mem[bp := Header(Ptr(mem, Ptr(mem, p)), Size(mem, bp) + Size(mem, Ptr(mem, p)))];
      } else {
        mem := mem[bp := Header(Ptr(mem, p), Size(mem, bp))];
      }
      if p + Size(mem, p) == bp {
        mem := mem[p := Header(Ptr(mem, bp), Size(mem, p) + Size(mem, bp))];
      } else {
        mem := mem[p := Header(bp, Size(mem, p))];
      }
    }

    /**
     morecore: sbrk's argument is an int, so that what it gives need not be what the new block is said to have. `room`
     says whether the kernel has the memory.
     */
    method Morecore(nunits: nat, room: bool) returns (p: nat)
      requires Valid() && freep != 0 && 0 < nunits <= 0x1000_0001
      modifies this
      ensures Shaped() && live == old(live) && freep != 0 && freep in ring && Ringed(mem, ring, base)
      ensures p == if SbrkGives(nunits, room) then freep else 0
      ensures p == 0 ==> unchanged(this)
      ensures Extent(p != 0, nunits, room, old(brk), old(top), old(owner.Keys), brk, top, owner.Keys)
      ensures p != 0 ==> && Untouched(old(mem), mem, live)
                         && old(brk) in owner && owner[old(brk)] in ring && Size(mem, owner[old(brk)]) >= nunits
      ensures Valid() <==> p == 0 || nunits < 0x800_0000
    {
      hide HeapOk, Ringed, Untouched, Asked, Moved;
      assert Ringed(mem, ring, base) && freep in ring by { RingOf(mem, freep, ring, live, owner, base, top); }
      var nu := AtLeast4096(nunits);
      AskedCovers(brk, nu);
      var ok, at := Sbrk(Asked(nu), room);
      if !ok { return 0; }
      Grow(mem, freep, ring, live, owner, base, top, at, nu);
      mem := mem[at := Header(Ptr(mem, at), nu)];
      live, owner, top := live[at := nu], Granted(owner, at, nu), at + nu;
      assert live - {at} == old(live);
      ghost var mid := mem;
      Free(at + 1);
      UntouchedBoth(old(mem), mid, mem, live);
      p := freep;
      assert Ringed(mem, ring, base) && freep in ring by { RingOf(mem, freep, ring, live, owner, base, top); }
    }

    /** Takes `n` units from entry `i + 1` of the ring. */
    method Take(prev: nat, p: nat, n: nat, ghost i: nat) returns (ap: nat)
      requires Shaped() && freep != 0 && n > 0 && i + 1 < |ring| && ring[i] == prev && ring[i + 1] == p
      requires Size(mem, p) >= n
      modifies this
      ensures Shaped() && ap > 0 && ap - 1 !in old(live) && live == old(live)[ap - 1 := n]
      ensures owner.Keys == old(owner).Keys && top == old(top) && brk == old(brk)
      ensures Untouched(old(mem), mem, old(live)) && freep == prev
    {
      hide HeapOk, Untouched, Spliced, Carved;
      if Size(mem, p) == n {
        TakeWhole(mem, freep, ring, live, owner, base, top, i);
        ring, live := Spliced(ring, i, [], i + 2), live[p := n];
        mem := mem[prev := Header(Ptr(mem, p), Size(mem, prev))];
        ap := p + 1;
      } else {
        TakeTail(mem, freep, ring, live, owner, base, top, i + 1, n);
        var q := p + (Size(mem, p) - n);
        live, owner := live[q := n], Carved(owner, q, n);
        mem := mem[p := Header(Ptr(mem, p), Size(mem, p) - n)][q := Header(Ptr(mem, q), n)];
        ap := q + 1;
      }
      freep := prev;
    }

    /**
     malloc. A first fit is found in one lap, or sbrk is asked once and the search ends in the block that
     holds its memory. Null exactly if nothing fits and sbrk fails. The heap stays valid exactly unless sbrk was asked
     for a request above MAX_REQUEST.
     */
    method Malloc(nbytes: nat, room: bool) returns (ap: nat, ghost grown: bool)
      requires nbytes < UINT && Shaped()
      requires NoFit(mem, ring, UnitsFor(nbytes)) ==> Valid()
      modifies this
      ensures Shaped() && (Valid() <==> if grown then nbytes <= MAX_REQUEST else old(Valid()))
      ensures grown <==> NoFit(old(mem), old(ring), UnitsFor(nbytes)) && SbrkGives(UnitsFor(nbytes), room)
      ensures Extent(grown, UnitsFor(nbytes), room, old(brk), old(top), old(owner.Keys), brk, top, owner.Keys)
      ensures ap == 0 <==> NoFit(old(mem), old(ring), UnitsFor(nbytes)) && !grown
      ensures ap == 0 ==> live == old(live)
      ensures ap != 0 ==> ap - 1 !in old(live) && live == old(live)[ap - 1 := UnitsFor(nbytes)]
      ensures old(brk) <= brk ==> Untouched(old(mem), mem, old(live))
    {
      hide HeapOk, Ringed, Searching, NoFit, FitAhead, Untouched, Units, Succ, Ahead, Size, Ptr, Extent, SbrkGives;
      hide UnitsFor;
      var n := UnitsFor(nbytes);
      Setup();
      ghost var f: nat := IndexOf(ring, freep);
      ghost var i: nat, w: nat := f, 0;
      LapStart(mem, ring, base, n, f, w);
      RequestFits(nbytes);
      ExtentNone(n, room, brk, top, owner.Keys);
      var prev, p := freep, Ptr(mem, freep);
      grown := false;
      while true
        invariant Shaped() && live == old(live) && Searching(mem, ring, base, freep, n, f, i, prev, p)
        invariant Untouched(old(mem), mem, old(live))
        invariant grown ==> SbrkGives(n, room) && NoFit(old(mem), old(ring), n)
        invariant grown ==> FitAhead(mem, ring, n, f, Succ(i, |ring|), w)
        invariant !grown ==> NoFit(mem, ring, n) == NoFit(old(mem), old(ring), n)
        invariant !grown ==> brk == old(brk) && top == old(top) && owner.Keys == old(owner.Keys)
        invariant Extent(grown, n, room, old(brk), old(top), old(owner.Keys), brk, top, owner.Keys)
        decreases !grown, Ahead(Succ(i, |ring|), f, |ring|)
      {
        LapStep(mem, ring, base, freep, n, f, i, prev, p, w);
        ghost var mid := mem;
        if Size(mem, p) >= n {
          ap := Take(prev, p, n, i);
          UntouchedBoth(old(mem), mid, mem, old(live));
          if grown { ExtentFits(nbytes, room, old(brk), old(top), old(owner.Keys), brk, top, owner.Keys); }
          return;
        }
        if p == freep {
          p := Morecore(n, room);
          if p == 0 { return 0, false; }
          UntouchedBoth(old(mem), mid, mem, old(live));
          grown := true;
          f := IndexOf(ring, freep);
          w := IndexOf(ring, owner[old(brk)]);
          LapStart(mem, ring, base, n, f, w);
          i := f;
        } else {
          i := Succ(i, |ring|);
        }
        prev := p;
        p := Ptr(mem, p);
      }
    }

    /** The first call makes a free list of `base` alone. */
    method Setup()
      requires Shaped()
      modifies this`mem, this`freep, this`ring
      ensures Shaped() && freep in ring && Ringed(mem, ring, base) && Untouched(old(mem), mem, live)
      ensures forall n: nat :: n > 0 ==> NoFit(mem, ring, n) == NoFit(old(mem), old(ring), n)
    {
      if freep == 0 {
        mem, freep := mem[base := Header(base, 0)], base;
        FirstUse(old(mem), old(ring), live, owner, base, top);
        ring := [base];
      }
    }
  }

  datatype Call = Alloc(nbytes: nat, room: bool) | Release(ap: nat) | Elsewhere(n: nat, room: bool)

  /**
   Any calls of malloc, of free on a block `held` and of sbrk by others: live blocks stay apart, below the break.
   */
  method Run(h: Heap, calls: seq<Call>) returns (held: set<nat>)
    requires h.Valid() && forall k :: 0 <= k < |calls| && calls[k].Alloc? ==> calls[k].nbytes <= MAX_REQUEST
    modifies h
    ensures h.Valid() && forall ap :: ap in held ==> ap > 0 && ap - 1 in h.live
    ensures forall a, b :: a in h.live && b in h.live && a != b ==> a + h.live[a] <= b || b + h.live[b] <= a
    ensures forall a :: a in h.live ==> h.base < a && a + h.live[a] <= h.brk
  {
    hide HeapOk, NoFit, Extent;
    held := {};
    for k := 0 to |calls|
      invariant h.Valid() && forall ap :: ap in held ==> ap > 0 && ap - 1 in h.live
    {
      match calls[k]
      case Alloc(nbytes, room) =>
        var ap; ghost var grown;
        ap, grown := h.Malloc(nbytes, room);
        if ap != 0 { held := held + {ap}; }
      case Release(ap) =>
        if ap in held {
          held := held - {ap};
          h.Free(ap);
        }
      case Elsewhere(n, room) => var ok, at := h.Sbrk(n, room);
    }
    forall a, b | a in h.live && b in h.live && a != b ensures a + h.live[a] <= b || b + h.live[b] <= a {
      LiveApart(h.mem, h.freep, h.ring, h.live, h.owner, h.base, h.top, a, b);
    }
    forall a | a in h.live ensures h.base < a && a + h.live[a] <= h.brk {
      LiveInside(h.mem, h.freep, h.ring, h.live, h.owner, h.base, h.top, a);
    }
  }

  /** On a fresh heap a request above MAX_REQUEST is a block at the break, whatever sbrk has given. */
  method TooMuch(base: nat, brk: nat, nbytes: nat, room: bool) returns (h: Heap, ap: nat)
    requires 0 < base < brk && MAX_REQUEST < nbytes < UINT && SbrkGives(UnitsFor(nbytes), room)
    ensures fresh(h) && h.Shaped() && !h.Valid() && ap == brk + 1 && h.live == map[brk := UnitsFor(nbytes)]
    ensures h.brk == Moved(brk, UnitsFor(nbytes) - 0x1000_0000) && h.top == brk + UnitsFor(nbytes)
  {
    hide HeapOk;
    RequestFits(nbytes);
    AskedIs(UnitsFor(nbytes));
    h := new Heap(base, brk);
    FreshNoFit(h.mem, h.freep, h.ring, h.live, h.owner, base, h.top, UnitsFor(nbytes));
    ghost var grown;
    ap, grown := h.Malloc(nbytes, room);
    LiveInside(h.mem, h.freep, h.ring, h.live, h.owner, base, h.top, ap - 1);
  }

  lemma FreshNoFit(mem: Memory, freep: nat, ring: seq<nat>, live: map<nat, nat>, owner: map<nat, nat>, base: nat,
                   top: nat, n: nat)
    requires HeapOk(mem, freep, ring, live, owner, base, top) && freep == 0
    ensures NoFit(mem, ring, n)
  {
  }

  /** malloc(2^32 - 1) gets one unit for a block of 2^28 + 1; what sbrk gives next is inside that live block. */
  method OneUnitForMany(base: nat, brk: nat) returns (h: Heap, ap: nat, at: nat)
    requires 0 < base < brk
    ensures ap == brk + 1 && h.live == map[brk := 0x1000_0001] && at == brk + 1 && brk < at < brk + h.live[brk]
  {
    AskedIs(0x1000_0001);
    h, ap := TooMuch(base, brk, UINT - 1, true);
    var ok;
    ok, at := h.Sbrk(4096, true);
  }

  /** malloc(2^31) gets nothing, succeeds without any memory left, and its block is beyond the break. */
  method NothingForMany(base: nat, brk: nat) returns (h: Heap, ap: nat)
    requires 0 < base < brk
    ensures ap == brk + 1 && h.live == map[brk := 0x800_0001] && h.brk <= brk
  {
    AskedIs(0x800_0001);
    h, ap := TooMuch(base, brk, 0x8000_0000, false);
  }
}
