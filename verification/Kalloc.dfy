/**
 The physical page allocator of xv6-riscv/kernel/kalloc.c: a free list threaded through
 the free pages themselves, and a reference count per page.

 Pages are numbered; 0 is the null pointer. `count` holds the pages in use.
 */
module Kalloc {
  import opened Cow

  /** The list that starts at `head` visits exactly `free`, in order. */
  ghost predicate Chained(head: nat, next: map<nat, nat>, free: seq<nat>)
    decreases |free|
  {
    if free == [] then head == 0
    else head == free[0] != 0 && head in next && Chained(next[head], next, free[1..])
  }

  /** Each managed page is counted or on the free list, once. */
  ghost predicate Partition(lo: nat, hi: nat, count: map<nat, nat>, free: seq<nat>) {
    && (forall p :: lo <= p < hi ==> (p in count <==> p !in free))
    && (forall p :: p in free ==> lo <= p < hi)
    && (forall p :: p in count ==> lo <= p < hi && count[p] > 0)
    && (forall i, j :: 0 <= i < j < |free| ==> free[i] != free[j])
  }

  ghost predicate CountAt(refcnt: seq<nat>, base: nat, count: map<nat, nat>, p: nat) {
    base <= p < base + |refcnt| && refcnt[p - base] == Get(count, p)
  }

  /** The refcnt array holds the counts, at index pa2idx. */
  ghost predicate Recorded(refcnt: seq<nat>, base: nat, lo: nat, hi: nat, count: map<nat, nat>) {
    forall p: nat :: lo <= p < hi ==> CountAt(refcnt, base, count, p)
  }

  lemma RecordedSet(refcnt: seq<nat>, base: nat, lo: nat, hi: nat, count: map<nat, nat>, p: nat, count': map<nat, nat>)
    requires Recorded(refcnt, base, lo, hi, count) && base <= lo <= p < hi && p - base < |refcnt|
    requires forall q :: q != p ==> Get(count', q) == Get(count, q)
    ensures refcnt[p - base] == Get(count, p)
    ensures Recorded(refcnt[p - base := Get(count', p)], base, lo, hi, count')
  {
    assert CountAt(refcnt, base, count, p);
    var r := refcnt[p - base := Get(count', p)];
    forall q: nat | lo <= q < hi ensures CountAt(r, base, count', q) {
      assert CountAt(refcnt, base, count, q);
    }
  }

  lemma PartitionPush(lo: nat, hi: nat, count: map<nat, nat>, free: seq<nat>, p: nat)
    requires Partition(lo, hi, count, free) && p in count
    ensures Partition(lo, hi, count - {p}, [p] + free)
  {
    var all := [p] + free;
    assert forall k :: 1 <= k < |all| ==> all[k] == free[k - 1];
    assert forall q :: q in all <==> q == p || q in free;
  }

  lemma PartitionPop(lo: nat, hi: nat, count: map<nat, nat>, free: seq<nat>)
    requires Partition(lo, hi, count, free) && free != []
    ensures Partition(lo, hi, count[free[0] := 1], free[1..])
  {
    var p, rest := free[0], free[1..];
    assert free == [p] + rest && p in free;
    assert forall k :: 0 <= k < |rest| ==> rest[k] == free[k + 1];
    assert forall q :: q in free <==> q == p || q in rest;
    assert p !in rest;
  }

  /** The managed pages nobody references. */
  ghost function Unreferenced(lo: nat, hi: nat, count: map<nat, nat>): (s: set<nat>) {
    set p: nat | lo <= p < hi && p !in count
  }

  lemma FreeSize(lo: nat, hi: nat, count: map<nat, nat>, free: seq<nat>)
    requires Partition(lo, hi, count, free)
    ensures |free| == |Unreferenced(lo, hi, count)|
  {
    DistinctSize(free);
    assert Unreferenced(lo, hi, count) == Members(free);
  }

  ghost function Members(s: seq<nat>): (r: set<nat>) {
    set p | p in s
  }

  lemma {:induction false} DistinctSize(s: seq<nat>)
    requires forall i, j :: 0 <= i < j < |s| ==> s[i] != s[j]
    ensures |Members(s)| == |s|
  {
    if s != [] {
      var rest, last := s[..|s| - 1], s[|s| - 1];
      DistinctSize(rest);
      assert s == rest + [last] && last !in rest;
      assert Members(s) == Members(rest) + {last};
    }
  }

  class Kmem {
    const base: nat      // first page of the refcnt array, KERNBASE
    const lo: nat        // first managed page, just after the kernel
    const hi: nat        // PHYSTOP
    var freelist: nat
    var next: map<nat, nat>
    var refcnt: seq<nat>
    ghost var free: seq<nat>
    ghost var count: map<nat, nat>

    ghost predicate Valid()
      reads this
    {
      && 0 < base <= lo <= hi && |refcnt| == hi - base
      && Chained(freelist, next, free)
      && Partition(lo, hi, count, free)
      && Recorded(refcnt, base, lo, hi, count)
    }

    lemma Managed(p: nat)
      requires Valid() && p in count
      ensures lo <= p < hi && p != 0
    {
    }

    /** kinit and freerange: everything is free. */
    constructor (base: nat, lo: nat, hi: nat)
      requires 0 < base <= lo <= hi
      ensures Valid() && count == map[] && |free| == hi - lo
      ensures this.base == base && this.lo == lo && this.hi == hi
    {
      this.base, this.lo, this.hi := base, lo, hi;
      freelist, next, refcnt := 0, map[], seq(hi - base, _ => 0);
      free, count := [], map[];
      new;
      assert forall q: nat :: lo <= q < hi ==> CountAt(refcnt, base, count, q);
      for p := lo to hi
        invariant |refcnt| == hi - base && count == map[] && |free| == p - lo
        invariant Chained(freelist, next, free)
        invariant forall q :: q in free <==> lo <= q < p
        invariant forall i, j :: 0 <= i < j < |free| ==> free[i] != free[j]
        invariant Recorded(refcnt, base, lo, hi, count)
      {
        RecordedSet(refcnt, base, lo, hi, count, p, count);
        ghost var was := refcnt;
        refcnt := refcnt[p - base := 1];
        refcnt := refcnt[p - base := refcnt[p - base] - 1];
        assert refcnt == was[p - base := 0];
        ChainPush(freelist, next, free, p);
        next := next[p := freelist];
        freelist := p;
        free := [p] + free;
      }
    }

    /** kfree: drops a reference; the last one puts the page on the free list. !ok is a panic. */
    method Kfree(p: nat) returns (ok: bool)
      requires Valid()
      modifies this
      ensures ok <==> p in old(count)
      ensures Valid()
      ensures count == if ok then Dec(old(count), p) else old(count)
      ensures free == if ok && old(Get(count, p)) == 1 then [p] + old(free) else old(free)
    {
      if p < lo || p >= hi { return false; }
      RecordedSet(refcnt, base, lo, hi, count, p, count);
      if refcnt[p - base] < 1 { return false; }
      RecordedSet(refcnt, base, lo, hi, count, p, Dec(count, p));
      refcnt := refcnt[p - base := refcnt[p - base] - 1];
      count := Dec(count, p);
      if refcnt[p - base] == 0 {
        PartitionPush(lo, hi, old(count), free, p);
        ChainPush(freelist, next, free, p);
        next := next[p := freelist];
        freelist := p;
        free := [p] + free;
      }
      ok := true;
    }

    /** kalloc: a page nobody references, or 0 exactly when every page is in use. */
    method Kalloc() returns (p: nat)
      requires Valid()
      modifies this
      ensures Valid()
      ensures p == 0 <==> old(free) == []
      ensures p == 0 ==> count == old(count) && free == old(free)
      ensures p != 0 ==> p !in old(count) && count == old(count)[p := 1] && free == old(free)[1..] && p == old(free)[0]
    {
      p := freelist;
      if p != 0 {
        assert p == free[0] && p in free;
        PartitionPop(lo, hi, count, free);
        RecordedSet(refcnt, base, lo, hi, count, p, count[p := 1]);
        freelist := next[p];
        refcnt := refcnt[p - base := 1];
        count := count[p := 1];
        free := free[1..];
      }
    }

    /** krefinc; !ok is a panic. */
    method Krefinc(p: nat) returns (ok: bool)
      requires Valid()
      modifies this
      ensures Valid() && free == old(free)
      ensures ok <==> p in old(count)
      ensures count == if ok then Inc(old(count), p) else old(count)
    {
      if p < lo || p >= hi { return false; }
      RecordedSet(refcnt, base, lo, hi, count, p, Inc(count, p));
      if refcnt[p - base] < 1 { return false; }
      refcnt := refcnt[p - base := refcnt[p - base] + 1];
      count := Inc(count, p);
      ok := true;
    }

    /** krefcnt; !ok is a panic. */
    method Krefcnt(p: nat) returns (ok: bool, c: nat)
      requires Valid()
      ensures ok <==> lo <= p < hi
      ensures ok ==> c == Get(count, p)
    {
      if p < lo || p >= hi { return false, 0; }
      RecordedSet(refcnt, base, lo, hi, count, p, count);
      return true, refcnt[p - base];
    }

    /** kfreepages: the length of the free list is the number of pages not in use. */
    method Kfreepages() returns (n: nat)
      requires Valid()
      ensures n == |free| == |Unreferenced(lo, hi, count)|
    {
      FreeSize(lo, hi, count, free);
      n := 0;
      var q := freelist;
      while q != 0
        invariant n <= |free| && Chained(q, next, free[n..])
        decreases |free| - n
      {
        assert free[n..][1..] == free[n + 1..];
        q, n := next[q], n + 1;
      }
    }
  }

  lemma ChainPush(head: nat, next: map<nat, nat>, free: seq<nat>, p: nat)
    requires Chained(head, next, free) && p != 0 && p !in free
    ensures Chained(p, next[p := head], [p] + free)
  {
    ChainFrame(head, next, free, p, head);
    assert ([p] + free)[1..] == free;
  }

  lemma {:induction false} ChainFrame(head: nat, next: map<nat, nat>, free: seq<nat>, p: nat, x: nat)
    requires Chained(head, next, free) && p !in free
    ensures Chained(head, next[p := x], free)
    decreases |free|
  {
    if free != [] {
      assert free[0] in free;
      ChainFrame(next[head], next, free[1..], p, x);
    }
  }
}
