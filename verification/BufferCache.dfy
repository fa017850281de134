/**
 The disk block cache of xv6-riscv/kernel/bio.c.

 A `struct buf *` is an index into the static array of buffers; index `nbuf` is
 the list head. Users see only `refs`: the blocks that somebody references, with
 their reference count and current bytes. A buffer that nobody references agrees
 with the disk, so recycling it loses nothing.
 */
module BufferCache {
  import opened Counting

  type Block = seq<nat>
  type Disk = seq<Block>

  datatype Buf = Buf(valid: bool, dev: nat, blockno: nat, refcnt: nat,
                     prev: nat, next: nat, data: Block)

  datatype Ref = Ref(count: nat, data: Block)

  // ----- the circular list through prev and next

  /** The `k`-th and next entries of a tour of the list point at each other. */
  ghost predicate Link(bufs: seq<Buf>, lap: seq<nat>, k: nat) {
    && k + 1 < |lap| && lap[k] < |bufs| && lap[k + 1] < |bufs|
    && bufs[lap[k]].next == lap[k + 1] && bufs[lap[k + 1]].prev == lap[k]
  }

  ghost predicate Distinct(s: seq<nat>) {
    forall j, k :: 0 <= j < k < |s| ==> s[j] != s[k]
  }

  /** `lap` leaves a buffer, meets pairwise different ones, and comes back to where it started. */
  ghost predicate Cycle(bufs: seq<Buf>, lap: seq<nat>) {
    && |lap| >= 2 && lap[|lap| - 1] == lap[0]
    && Distinct(lap[1..])
    && (forall k :: 0 <= k < |lap| ==> lap[k] < |bufs|)
    && (forall k: nat :: k < |lap| - 1 ==> Link(bufs, lap, k))
  }

  lemma LapDistinct(lap: seq<nat>, j: nat, k: nat)
    requires |lap| >= 2 && lap[|lap| - 1] == lap[0] && Distinct(lap[1..])
    requires j < k < |lap|
    ensures lap[j] == lap[k] <==> j == 0 && k == |lap| - 1
  {
    var s := lap[1..];
    assert lap[k] == s[k - 1];
    if j > 0 {
      assert lap[j] == s[j - 1];
    } else {
      assert lap[0] == s[|s| - 1];
    }
  }

  lemma LapHome(lap: seq<nat>, k: nat)
    requires |lap| >= 2 && lap[|lap| - 1] == lap[0] && Distinct(lap[1..])
    requires k < |lap| - 1
    ensures lap[k] == lap[0] ==> k == 0
  {
    if k > 0 { LapDistinct(lap, 0, k); }
  }

  ghost predicate SamePayload(a: seq<Buf>, b: seq<Buf>) {
    |a| == |b| && forall i :: 0 <= i < |a| ==> a[i].(prev := 0, next := 0) == b[i].(prev := 0, next := 0)
  }

  function Unlink(bufs: seq<Buf>, b: nat): (r: seq<Buf>)
    requires b < |bufs| && bufs[b].next < |bufs| && bufs[b].prev < |bufs|
    ensures SamePayload(r, bufs)
  {
    var p, q := bufs[b].prev, bufs[b].next;
    var r := bufs[q := bufs[q].(prev := p)];
    r[p := r[p].(next := q)]
  }

  function PushFront(bufs: seq<Buf>, h: nat, b: nat): (r: seq<Buf>)
    requires b < |bufs| && h < |bufs| && bufs[h].next < |bufs| && b != h
    ensures SamePayload(r, bufs)
  {
    var r := bufs[b := bufs[b].(next := bufs[h].next, prev := h)];
    var q := r[h].next;
    var r' := r[q := r[q].(prev := b)];
    r'[h := r'[h].(next := b)]
  }

  /** Taking the entry at `n` off the list leaves a cycle through the others. */
  lemma UnlinkCycle(bufs: seq<Buf>, lap: seq<nat>, n: nat)
    requires Cycle(bufs, lap) && 0 < n < |lap| - 1
    ensures lap[n] < |bufs| && bufs[lap[n]].next == lap[n + 1] < |bufs| && bufs[lap[n]].prev == lap[n - 1] < |bufs|
    ensures Cycle(Unlink(bufs, lap[n]), lap[..n] + lap[n + 1..])
  {
    var now := lap[..n] + lap[n + 1..];
    assert Link(bufs, lap, n - 1) && Link(bufs, lap, n);
    assert Distinct(now[1..]) by {
      var s, t := lap[1..], now[1..];
      assert forall j :: 0 <= j < |t| ==> t[j] == if j < n - 1 then s[j] else s[j + 1];
    }
    forall k: nat | k < |now| - 1 ensures Link(Unlink(bufs, lap[n]), now, k) {
      UnlinkLink(bufs, lap, n, k);
    }
    hide Unlink, Link;
  }

  lemma UnlinkLink(bufs: seq<Buf>, lap: seq<nat>, n: nat, k: nat)
    requires Cycle(bufs, lap) && 0 < n < |lap| - 1 && k < |lap| - 2
    requires lap[n] < |bufs| && bufs[lap[n]].next == lap[n + 1] < |bufs| && bufs[lap[n]].prev == lap[n - 1] < |bufs|
    ensures Link(Unlink(bufs, lap[n]), lap[..n] + lap[n + 1..], k)
  {
    if k < n - 1 {
      assert Link(bufs, lap, k);
      LapDistinct(lap, k, n - 1);
      LapDistinct(lap, k + 1, n + 1);
    } else if k > n - 1 {
      assert Link(bufs, lap, k + 1);
      LapDistinct(lap, n - 1, k + 1);
      LapDistinct(lap, n + 1, k + 2);
    }
  }

  /** Pushing a buffer that is not on the list behind its head. */
  lemma PushCycle(bufs: seq<Buf>, lap: seq<nat>, b: nat)
    requires Cycle(bufs, lap) && b < |bufs| && b !in lap
    ensures lap[0] < |bufs| && bufs[lap[0]].next == lap[1] < |bufs|
    ensures Cycle(PushFront(bufs, lap[0], b), [lap[0], b] + lap[1..])
  {
    var now := [lap[0], b] + lap[1..];
    assert Link(bufs, lap, 0);
    assert now[1..] == [b] + lap[1..];
    var r := PushFront(bufs, lap[0], b);
    forall k: nat | k < |now| - 1 ensures Link(r, now, k) {
      if k >= 2 {
        assert Link(bufs, lap, k - 1);
        LapDistinct(lap, 0, k - 1);
        LapDistinct(lap, 1, k);
      }
    }
  }

  lemma SameLinks(was: seq<Buf>, now: seq<Buf>, lap: seq<nat>)
    requires Cycle(was, lap) && |now| == |was|
    requires forall i :: 0 <= i < |was| ==> was[i].prev == now[i].prev && was[i].next == now[i].next
    ensures Cycle(now, lap)
  {
    forall k: nat | k < |lap| - 1 ensures Link(now, lap, k) {
      assert Link(was, lap, k);
    }
  }

  // ----- what the buffers hold

  /** Buffer `i` is known to `slot`; its bytes are those of `refs` when referenced, those of the disk otherwise. */
  ghost predicate BufOk(bufs: seq<Buf>, dev: nat, disk: Disk, refs: map<nat, Ref>, slot: map<nat, nat>, i: nat) {
    && i < |bufs|
    && var b := bufs[i];
    && (b.dev == dev ==> b.blockno in slot && slot[b.blockno] == i && b.valid && b.blockno < |disk|)
    && (b.dev != dev ==> b.dev == 0 && b.refcnt == 0 && !b.valid)
    && (b.refcnt > 0 ==> b.blockno in refs && refs[b.blockno] == Ref(b.refcnt, b.data))
    && (b.refcnt == 0 && b.dev == dev ==> b.blockno !in refs && b.data == disk[b.blockno])
  }

  ghost predicate SlotOk(bufs: seq<Buf>, n: nat, dev: nat, slot: map<nat, nat>, bn: nat) {
    bn in slot && slot[bn] < n < |bufs| && bufs[slot[bn]].dev == dev && bufs[slot[bn]].blockno == bn
  }

  ghost predicate Tracks(bufs: seq<Buf>, n: nat, dev: nat, disk: Disk, refs: map<nat, Ref>, slot: map<nat, nat>) {
    && dev != 0 && n < |bufs|
    && (forall i: nat :: i < n ==> BufOk(bufs, dev, disk, refs, slot, i))
    && (forall bn :: bn in slot ==> SlotOk(bufs, n, dev, slot, bn))
    && refs.Keys <= slot.Keys
  }

  /** No two buffers hold the same block of a nonzero device. */
  lemma Unique(bufs: seq<Buf>, n: nat, dev: nat, disk: Disk, refs: map<nat, Ref>, slot: map<nat, nat>, i: nat, j: nat)
    requires Tracks(bufs, n, dev, disk, refs, slot)
    requires i < n && j < n && bufs[i].dev == bufs[j].dev != 0 && bufs[i].blockno == bufs[j].blockno
    ensures i == j
  {
    assert BufOk(bufs, dev, disk, refs, slot, i) && BufOk(bufs, dev, disk, refs, slot, j);
  }

  /** Some buffer is unreferenced exactly when fewer blocks are referenced than there are buffers. */
  lemma SpareBuffer(bufs: seq<Buf>, n: nat, dev: nat, disk: Disk, refs: map<nat, Ref>, slot: map<nat, nat>)
    requires Tracks(bufs, n, dev, disk, refs, slot)
    ensures |refs| <= n
    ensures |refs| < n <==> exists i: nat :: i < n && bufs[i].refcnt == 0
  {
    assert forall bn :: bn in refs ==> SlotOk(bufs, n, dev, slot, bn);
    var m := map bn | bn in refs :: slot[bn];
    assert m.Keys == refs.Keys;
    Pigeonhole(m, n);
    forall i: nat | i < n ensures i in m.Values <==> bufs[i].refcnt > 0 {
      assert BufOk(bufs, dev, disk, refs, slot, i);
      if bufs[i].refcnt > 0 { assert m[bufs[i].blockno] == i; }
    }
  }

  // ----- the interface in terms of referenced blocks

  /** What a read of `bn` sees: the referenced copy if there is one, otherwise the disk. */
  ghost function View(refs: map<nat, Ref>, disk: Disk, bn: nat): (data: Block)
    requires bn < |disk|
  {
    if bn in refs then refs[bn].data else disk[bn]
  }

  ghost function Acquired(refs: map<nat, Ref>, disk: Disk, bn: nat): (r: map<nat, Ref>)
    requires bn < |disk|
  {
    refs[bn := Ref((if bn in refs then refs[bn].count else 0) + 1, View(refs, disk, bn))]
  }

  ghost function Released(refs: map<nat, Ref>, bn: nat): (r: map<nat, Ref>)
    requires bn in refs
  {
    if refs[bn].count <= 1 then refs - {bn} else refs[bn := refs[bn].(count := refs[bn].count - 1)]
  }

  /** Changing one buffer in step with `refs` and `slot` keeps the rest tracked. */
  lemma TracksUpdate(bufs: seq<Buf>, n: nat, dev: nat, disk: Disk, refs: map<nat, Ref>, slot: map<nat, nat>,
                     b: nat, now: Buf, refs': map<nat, Ref>)
    requires Tracks(bufs, n, dev, disk, refs, slot)
    requires b < n && now.dev == dev && now.blockno < |disk| && now.valid
    requires now.blockno in slot ==> slot[now.blockno] == b
    requires bufs[b].dev == dev && bufs[b].blockno != now.blockno ==> bufs[b].refcnt == 0
    requires refs' == if now.refcnt > 0 then refs[now.blockno := Ref(now.refcnt, now.data)] else refs - {now.blockno}
    requires now.refcnt == 0 ==> now.data == disk[now.blockno]
    ensures Tracks(bufs[b := now], n, dev, disk, refs', Relocated(slot, bufs[b], dev, now.blockno, b))
  {
    var slot' := Relocated(slot, bufs[b], dev, now.blockno, b);
    var bufs' := bufs[b := now];
    assert BufOk(bufs, dev, disk, refs, slot, b);
    forall i: nat | i < n ensures BufOk(bufs', dev, disk, refs', slot', i) {
      assert BufOk(bufs, dev, disk, refs, slot, i);
    }
    forall bn | bn in slot' ensures SlotOk(bufs', n, dev, slot', bn) {
      if bn != now.blockno { assert SlotOk(bufs, n, dev, slot, bn); }
    }
    assert refs'.Keys <= slot'.Keys;
  }

  /** Where blocks are cached once buffer `b`, which held `was`, holds `bn`. */
  ghost function Relocated(slot: map<nat, nat>, was: Buf, dev: nat, bn: nat, b: nat): (r: map<nat, nat>) {
    (if was.dev == dev then slot - {was.blockno} else slot)[bn := b]
  }

  /** A buffer once bread has made it hold `bn`: one more reference, or recycled and read from the disk. */
  ghost function ReadInto(b: Buf, dev: nat, bn: nat, disk: Disk): (r: Buf)
    requires bn < |disk|
  {
    if b.dev == dev && b.blockno == bn then b.(refcnt := b.refcnt + 1)
    else b.(dev := dev, blockno := bn, valid := true, refcnt := 1, data := disk[bn])
  }

  lemma AcquireTracks(bufs: seq<Buf>, n: nat, dev: nat, disk: Disk, refs: map<nat, Ref>, slot: map<nat, nat>,
                      b: nat, bn: nat)
    requires Tracks(bufs, n, dev, disk, refs, slot) && bn < |disk| && b < n
    requires HoldsBlock(bufs[b], dev, bn) || (bufs[b].refcnt == 0 && bn !in slot)
    ensures bufs[b].valid || !HoldsBlock(bufs[b], dev, bn)
    ensures bn in refs || bufs[b].refcnt == 0
    ensures Tracks(bufs[b := ReadInto(bufs[b], dev, bn, disk)], n, dev, disk,
                   Acquired(refs, disk, bn), Relocated(slot, bufs[b], dev, bn, b))
    ensures forall x :: x in refs ==> x in Relocated(slot, bufs[b], dev, bn, b) &&
                                      Relocated(slot, bufs[b], dev, bn, b)[x] == slot[x]
  {
    assert BufOk(bufs, dev, disk, refs, slot, b);
    TracksUpdate(bufs, n, dev, disk, refs, slot, b, ReadInto(bufs[b], dev, bn, disk), Acquired(refs, disk, bn));
  }

  /** A tour from the head `n` through all buffers 0..n-1. */
  ghost predicate Listed(bufs: seq<Buf>, n: nat, lap: seq<nat>) {
    |bufs| == n + 1 && Cycle(bufs, lap) && lap[0] == n && forall i: nat :: i < n ==> i in lap
  }

  ghost predicate HoldsBlock(b: Buf, dev: nat, blockno: nat) {
    b.dev == dev && b.blockno == blockno
  }

  lemma ListedUpdate(bufs: seq<Buf>, n: nat, lap: seq<nat>, b: nat, now: Buf)
    requires Listed(bufs, n, lap) && b < n && now.prev == bufs[b].prev && now.next == bufs[b].next
    ensures Listed(bufs[b := now], n, lap)
  {
    SameLinks(bufs, bufs[b := now], lap);
  }

  /** Every buffer used less recently than the `k`-th of the tour is referenced. */
  ghost predicate LeastRecent(bufs: seq<Buf>, lap: seq<nat>, k: nat) {
    && 0 < k < |lap| - 1
    && forall j :: k < j < |lap| - 1 ==> lap[j] < |bufs| && bufs[lap[j]].refcnt > 0
  }

  class Cache {
    const nbuf: nat
    const dev: nat
    var bufs: seq<Buf>
    var disk: Disk
    ghost var lap: seq<nat>          // head, buffers from most to least recently used, head
    ghost var refs: map<nat, Ref>
    ghost var slot: map<nat, nat>
    ghost var trail: seq<Disk>       // the disk after each block write so far

    ghost predicate Valid()
      reads this
    {
      Listed(bufs, nbuf, lap) && Tracks(bufs, nbuf, dev, disk, refs, slot)
    }

    /** binit: all buffers on the list, none of them holding a block. */
    constructor (nbuf: nat, dev: nat, disk: Disk)
      requires dev != 0
      ensures Valid() && this.nbuf == nbuf && this.dev == dev && this.disk == disk
      ensures refs == map[] && trail == []
    {
      this.nbuf, this.dev, this.disk := nbuf, dev, disk;
      bufs := seq(nbuf + 1, i => Buf(false, 0, 0, 0, nbuf, nbuf, []));
      lap, refs, slot, trail := [nbuf, nbuf], map[], map[], [];
      new;
      assert Link(bufs, lap, 0);
      for b := 0 to nbuf
        invariant |bufs| == nbuf + 1 && Cycle(bufs, lap) && lap[0] == nbuf
        invariant this.dev == dev && this.disk == disk && refs == map[] && slot == map[] && trail == []
        invariant forall i :: 0 <= i < nbuf ==> bufs[i].refcnt == 0 && !bufs[i].valid && bufs[i].dev == 0
        invariant forall i: nat :: i in lap <==> i < b || i == nbuf
      {
        PushCycle(bufs, lap, b);
        bufs := PushFront(bufs, nbuf, b);
        ghost var was := lap;
        lap := [nbuf, b] + lap[1..];
        assert forall i: nat :: i in lap <==> i == b || i in was by {
          assert was == [nbuf] + was[1..];
        }
      }
    }

    /** First loop of bget: the buffer that holds the block, or the head. */
    method FindCached(blockno: nat) returns (b: nat)
      requires Listed(bufs, nbuf, lap)
      ensures b <= nbuf
      ensures b < nbuf ==> HoldsBlock(bufs[b], dev, blockno)
      ensures b == nbuf ==> forall i :: 0 <= i < nbuf ==> !HoldsBlock(bufs[i], dev, blockno)
    {
      ghost var k: nat := 1;
      assert Link(bufs, lap, 0);
      b := bufs[nbuf].next;
      while b != nbuf && !(bufs[b].dev == dev && bufs[b].blockno == blockno)
        invariant 1 <= k < |lap| && b == lap[k] && b <= nbuf
        invariant forall j :: 1 <= j < k ==> !HoldsBlock(bufs[lap[j]], dev, blockno)
        decreases |lap| - k
      {
        assert k < |lap| - 1;
        assert Link(bufs, lap, k);
        b, k := bufs[b].next, k + 1;
      }
      if b == nbuf {
        LapDistinct(lap, 0, k);
        forall i | 0 <= i < nbuf ensures !HoldsBlock(bufs[i], dev, blockno) {
          assert i in lap;
          var j :| 0 <= j < |lap| && lap[j] == i;
        }
      }
    }

    /** Second loop of bget: the least recently used unreferenced buffer, or the head. */
    method FindUnused() returns (b: nat)
      requires Listed(bufs, nbuf, lap)
      ensures b <= nbuf
      ensures b < nbuf ==> bufs[b].refcnt == 0 && exists k: nat :: LeastRecent(bufs, lap, k) && lap[k] == b
      ensures b == nbuf ==> forall i :: 0 <= i < nbuf ==> bufs[i].refcnt > 0
    {
      ghost var k := |lap| - 2;
      assert Link(bufs, lap, k);
      b := bufs[nbuf].prev;
      while b != nbuf && bufs[b].refcnt != 0
        invariant 0 <= k < |lap| - 1 && b == lap[k] && b <= nbuf
        invariant forall j :: k < j < |lap| - 1 ==> bufs[lap[j]].refcnt > 0
        decreases k
      {
        assert Link(bufs, lap, k - 1);
        b, k := bufs[b].prev, k - 1;
      }
      if b == nbuf {
        LapHome(lap, k);
        forall i | 0 <= i < nbuf ensures bufs[i].refcnt > 0 {
          assert i in lap;
          var j :| 0 <= j < |lap| && lap[j] == i;
        }
      } else {
        assert LeastRecent(bufs, lap, k);
      }
    }

    /** The choice bget makes: the buffer that holds the block, else an unused one; !ok is its panic. */
    method Choose(blockno: nat) returns (ok: bool, b: nat)
      requires Valid() && blockno < |disk|
      ensures ok <==> blockno in refs || |refs| < nbuf
      ensures ok ==> b < nbuf < |bufs|
      ensures ok ==> HoldsBlock(bufs[b], dev, blockno) || (bufs[b].refcnt == 0 && blockno !in slot)
    {
      SpareBuffer(bufs, nbuf, dev, disk, refs, slot);
      b := FindCached(blockno);
      if b == nbuf {
        NotCached(bufs, nbuf, dev, disk, refs, slot, blockno);
        b := FindUnused();
      } else {
        assert BufOk(bufs, dev, disk, refs, slot, b);
      }
      ok := b != nbuf;
    }

    /** bread: a referenced buffer with the current bytes of the block. */
    method Bread(blockno: nat) returns (ok: bool, b: nat)
      requires Valid() && blockno < |disk|
      modifies this`bufs, this`refs, this`slot
      ensures Valid()
      ensures ok <==> blockno in old(refs) || |old(refs)| < nbuf
      ensures !ok ==> refs == old(refs) && slot == old(slot)
      ensures ok ==> b < nbuf && refs == Acquired(old(refs), disk, blockno)
      ensures ok ==> blockno in slot && slot[blockno] == b
      ensures forall bn :: bn in old(refs) ==> bn in slot && slot[bn] == old(slot)[bn]
    {
      hide Listed, Tracks;
      InSlots(bufs, nbuf, dev, disk, refs, slot);
      ok, b := Choose(blockno);
      if !ok { return; }
      AcquireTracks(bufs, nbuf, dev, disk, refs, slot, b, blockno);
      ListedUpdate(bufs, nbuf, lap, b, ReadInto(bufs[b], dev, blockno, disk));
      refs, slot := Acquired(refs, disk, blockno), Relocated(slot, bufs[b], dev, blockno, b);
      Load(b, blockno);
    }

    /** What bget and bread do to the buffer chosen. */
    method Load(b: nat, blockno: nat)
      requires b < |bufs| && blockno < |disk| && (bufs[b].valid || !HoldsBlock(bufs[b], dev, blockno))
      modifies this`bufs
      ensures bufs == old(bufs)[b := ReadInto(old(bufs)[b], dev, blockno, disk)]
    {
      if bufs[b].dev == dev && bufs[b].blockno == blockno {
        bufs := bufs[b := bufs[b].(refcnt := bufs[b].refcnt + 1)];
      } else {
        bufs := bufs[b := bufs[b].(dev := dev, blockno := blockno, valid := false, refcnt := 1)];
      }
      if !bufs[b].valid {
        bufs := bufs[b := bufs[b].(data := disk[blockno], valid := true)];
      }
    }

    /** The buffer of a referenced block. */
    lemma Located(bn: nat)
      requires Valid() && bn in refs
      ensures bn < |disk| && bn in slot && slot[bn] < nbuf < |bufs|
      ensures bufs[slot[bn]].blockno == bn && bufs[slot[bn]].refcnt > 0
      ensures refs[bn] == Ref(bufs[slot[bn]].refcnt, bufs[slot[bn]].data)
    {
      assert SlotOk(bufs, nbuf, dev, slot, bn);
      assert BufOk(bufs, dev, disk, refs, slot, slot[bn]);
    }

    /** bwrite: the buffer's bytes reach the disk in one block write. */
    method Bwrite(b: nat)
      requires Valid() && b < nbuf && bufs[b].refcnt > 0
      modifies this`disk, this`trail
      ensures Valid()
      ensures bufs[b].blockno in refs && bufs[b].blockno < |old(disk)|
      ensures disk == old(disk)[bufs[b].blockno := bufs[b].data]
      ensures trail == old(trail) + [disk]
    {
      assert BufOk(bufs, dev, disk, refs, slot, b);
      disk := disk[bufs[b].blockno := bufs[b].data];
      trail := trail + [disk];
      forall i: nat | i < nbuf ensures BufOk(bufs, dev, disk, refs, slot, i) {
        assert old(BufOk(bufs, dev, disk, refs, slot, i));
      }
    }

    /** memmove into a referenced buffer. */
    method Fill(b: nat, data: Block)
      requires Valid() && b < nbuf && bufs[b].refcnt > 0
      modifies this`bufs, this`refs
      ensures Valid()
      ensures bufs == old(bufs)[b := old(bufs)[b].(data := data)]
      ensures bufs[b].blockno in old(refs)
      ensures refs == old(refs)[bufs[b].blockno := old(refs)[bufs[b].blockno].(data := data)]
    {
      assert BufOk(bufs, dev, disk, refs, slot, b);
      Recount(b, bufs[b].(data := data));
    }

    /** bpin */
    method Bpin(b: nat)
      requires Valid() && b < nbuf && bufs[b].refcnt > 0
      modifies this`bufs, this`refs
      ensures Valid()
      ensures bufs == old(bufs)[b := old(bufs)[b].(refcnt := old(bufs)[b].refcnt + 1)]
      ensures bufs[b].blockno in old(refs) && bufs[b].blockno < |disk|
      ensures refs == Acquired(old(refs), disk, bufs[b].blockno)
    {
      assert BufOk(bufs, dev, disk, refs, slot, b);
      Recount(b, bufs[b].(refcnt := bufs[b].refcnt + 1));
    }

    /** The buffer's bytes survive the loss of one reference: there are others, or the disk has them too. */
    predicate Kept(b: nat)
      requires b < |bufs|
      reads this
    {
      bufs[b].refcnt > 1 || (bufs[b].blockno < |disk| && bufs[b].data == disk[bufs[b].blockno])
    }

    /** bunpin: the buffer keeps its place in the list. */
    method Bunpin(b: nat)
      requires Valid() && b < nbuf && bufs[b].refcnt > 0
      modifies this`bufs, this`refs
      ensures Listed(bufs, nbuf, lap) && (Valid() <==> old(Kept(b)))
      ensures bufs == old(bufs)[b := old(bufs)[b].(refcnt := old(bufs)[b].refcnt - 1)]
      ensures bufs[b].blockno in old(refs)
      ensures refs == Released(old(refs), bufs[b].blockno)
    {
      assert BufOk(bufs, dev, disk, refs, slot, b);
      Recount(b, bufs[b].(refcnt := bufs[b].refcnt - 1));
    }

    /** Replaces a referenced buffer by `now`, which holds the same block. */
    method Recount(b: nat, now: Buf)
      requires Valid() && b < nbuf && bufs[b].refcnt > 0
      requires now.(refcnt := 0, data := []) == bufs[b].(refcnt := 0, data := [])
      modifies this`bufs, this`refs
      ensures now.blockno < |disk| && Listed(bufs, nbuf, lap)
      ensures Valid() <==> now.refcnt > 0 || now.data == disk[now.blockno]
      ensures bufs == old(bufs)[b := now]
      ensures refs == Recounted(old(refs), now)
    {
      assert BufOk(bufs, dev, disk, refs, slot, b);
      if now.refcnt > 0 || now.data == disk[now.blockno] {
        TracksUpdate(bufs, nbuf, dev, disk, refs, slot, b, now, Recounted(refs, now));
        assert Relocated(slot, bufs[b], dev, now.blockno, b) == slot;
      }
      refs := Recounted(refs, now);
      bufs := bufs[b := now];
      SameLinks(old(bufs), bufs, lap);
      assert Tracks(bufs, nbuf, dev, disk, refs, slot) ==> BufOk(bufs, dev, disk, refs, slot, b);
    }

    /** brelse: drop a reference; the last one moves the buffer to the front of the list. */
    method Brelse(b: nat)
      requires Valid() && b < nbuf && bufs[b].refcnt > 0
      modifies this`bufs, this`refs, this`lap
      ensures Listed(bufs, nbuf, lap) && (Valid() <==> old(Kept(b)))
      ensures old(bufs[b].blockno) in old(refs)
      ensures refs == Released(old(refs), old(bufs[b].blockno))
      ensures if old(bufs[b].refcnt) == 1 then MovedToFront(old(lap), b, lap) && bufs[b].refcnt == 0
              else lap == old(lap)
    {
      Bunpin(b);
      if bufs[b].refcnt == 0 { MoveToFront(b); }
    }

    method MoveToFront(b: nat)
      requires Listed(bufs, nbuf, lap) && b < nbuf
      modifies this`bufs, this`lap
      ensures Listed(bufs, nbuf, lap) && MovedToFront(old(lap), b, lap)
      ensures SamePayload(bufs, old(bufs)) && (Valid() <==> old(Valid()))
    {
      assert b in lap;
      ghost var n: nat :| n < |lap| && lap[n] == b;
      FrontListed(bufs, nbuf, lap, n);
      bufs := Unlink(bufs, b);
      bufs := PushFront(bufs, nbuf, b);
      lap := ToFront(lap, n);
      SameTracks(old(bufs), bufs, nbuf, dev, disk, refs, slot);
    }
  }

  /** The references once the buffer `now` has changed. */
  ghost function Recounted(refs: map<nat, Ref>, now: Buf): (r: map<nat, Ref>) {
    if now.refcnt > 0 then refs[now.blockno := Ref(now.refcnt, now.data)] else refs - {now.blockno}
  }

  ghost function ToFront(lap: seq<nat>, n: nat): (r: seq<nat>)
    requires 0 < n < |lap|
  {
    [lap[0], lap[n]] + lap[1..n] + lap[n + 1..]
  }

  /** `b` now comes first, and the others in the order they were in. */
  ghost predicate MovedToFront(lap: seq<nat>, b: nat, lap': seq<nat>) {
    exists n: nat :: 0 < n < |lap| && lap[n] == b && lap' == [lap[0], b] + lap[1..n] + lap[n + 1..]
  }

  lemma FrontListed(bufs: seq<Buf>, h: nat, lap: seq<nat>, n: nat)
    requires Listed(bufs, h, lap) && n < |lap| && lap[n] < h
    ensures 0 < n < |lap| - 1
    ensures bufs[lap[n]].next < |bufs| && bufs[lap[n]].prev < |bufs|
    ensures Unlink(bufs, lap[n])[h].next < |bufs|
    ensures Listed(PushFront(Unlink(bufs, lap[n]), h, lap[n]), h, ToFront(lap, n))
    ensures SamePayload(PushFront(Unlink(bufs, lap[n]), h, lap[n]), bufs)
  {
    UnlinkCycle(bufs, lap, n);
    NotInRest(bufs, lap, n);
    PushCycle(Unlink(bufs, lap[n]), Rest(lap, n), lap[n]);
    forall i: nat | i < h ensures i in ToFront(lap, n) {
      assert i in lap;
      InFront(lap, n, i);
    }
  }

  ghost function Rest(lap: seq<nat>, n: nat): (r: seq<nat>)
    requires n < |lap|
  {
    lap[..n] + lap[n + 1..]
  }

  lemma NotInRest(bufs: seq<Buf>, lap: seq<nat>, n: nat)
    requires Cycle(bufs, lap) && 0 < n < |lap| - 1
    ensures lap[n] !in Rest(lap, n)
    ensures Rest(lap, n)[0] == lap[0]
    ensures [lap[0], lap[n]] + Rest(lap, n)[1..] == ToFront(lap, n)
  {
    forall k | 0 <= k < |lap| - 1 ensures Rest(lap, n)[k] != lap[n] {
      if k < n { LapDistinct(lap, k, n); } else { LapDistinct(lap, n, k + 1); }
    }
  }

  lemma InFront(lap: seq<nat>, n: nat, i: nat)
    requires 0 < n < |lap| && i in lap
    ensures i in ToFront(lap, n)
  {
    var k :| 0 <= k < |lap| && lap[k] == i;
    var j := if k == 0 then 0 else if k == n then 1 else if k < n then k + 1 else k;
    assert ToFront(lap, n)[j] == i;
  }

  lemma InSlots(bufs: seq<Buf>, n: nat, dev: nat, disk: Disk, refs: map<nat, Ref>, slot: map<nat, nat>)
    requires Tracks(bufs, n, dev, disk, refs, slot)
    ensures forall bn :: bn in refs ==> bn in slot
  {
  }

  lemma SameTracks(a: seq<Buf>, b: seq<Buf>, n: nat, dev: nat, disk: Disk, refs: map<nat, Ref>, slot: map<nat, nat>)
    requires SamePayload(a, b)
    ensures Tracks(a, n, dev, disk, refs, slot) <==> Tracks(b, n, dev, disk, refs, slot)
  {
    if Tracks(a, n, dev, disk, refs, slot) { TracksToo(a, b, n, dev, disk, refs, slot); }
    if Tracks(b, n, dev, disk, refs, slot) { TracksToo(b, a, n, dev, disk, refs, slot); }
  }

  lemma TracksToo(was: seq<Buf>, now: seq<Buf>, n: nat, dev: nat, disk: Disk, refs: map<nat, Ref>, slot: map<nat, nat>)
    requires Tracks(was, n, dev, disk, refs, slot) && SamePayload(was, now)
    ensures Tracks(now, n, dev, disk, refs, slot)
  {
    forall i: nat | i < n ensures BufOk(now, dev, disk, refs, slot, i) {
      assert BufOk(was, dev, disk, refs, slot, i);
      assert was[i].(prev := 0, next := 0) == now[i].(prev := 0, next := 0);
    }
    forall bn | bn in slot ensures SlotOk(now, n, dev, slot, bn) {
      assert SlotOk(was, n, dev, slot, bn);
      assert was[slot[bn]].(prev := 0, next := 0) == now[slot[bn]].(prev := 0, next := 0);
    }
  }

  lemma NotCached(bufs: seq<Buf>, n: nat, dev: nat, disk: Disk, refs: map<nat, Ref>, slot: map<nat, nat>, bn: nat)
    requires Tracks(bufs, n, dev, disk, refs, slot)
    requires forall i :: 0 <= i < n ==> !HoldsBlock(bufs[i], dev, bn)
    ensures bn !in slot && bn !in refs
  {
    assert forall x :: x in slot ==> SlotOk(bufs, n, dev, slot, x);
    forall x | x in slot ensures x != bn { assert !HoldsBlock(bufs[slot[x]], dev, bn); }
  }
}
