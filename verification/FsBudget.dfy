/**
 Which blocks a write to a file allocates and logs, exactly, and disk images on which a transaction of filewrite
 reaches MAXOPBLOCKS.
 */
module FsBudget {
  import opened Fs
  import Counting

  ghost function FreeBlocks(used: seq<bool>): (s: set<nat>) {
    set a: nat | a < |used| && !used[a]
  }

  /** Which pointers of a file are new. */
  ghost function NewPtrs(p: seq<nat>, p': seq<nat>): (s: set<nat>) {
    set k: nat | k < |p| && k < |p'| && p[k] == 0 && p'[k] != 0
  }

  ghost function NewBlocks(p: seq<nat>, p': seq<nat>): (s: set<nat>) {
    set k: nat | k < |p| && k < |p'| && p[k] == 0 && p'[k] != 0 :: p'[k]
  }

  /** The pointers that a write of file blocks [first, first + n) has to fill, maybe that of the indirect block. */
  ghost function Needs(p: seq<nat>, first: nat, n: nat): (s: set<nat>)
    requires |p| == MAXFILE + 1
  {
    set k: nat | k < |p| && p[k] == 0 && (first <= k < first + n || (k == MAXFILE && PastDirect(first, n)))
  }

  ghost predicate Wrote(sb: Superblock, u0: seq<bool>, b0: seq<Bytes>, n0: seq<Inode>, o0: map<nat, Owner>,
                        u1: seq<bool>, b1: seq<Bytes>, n1: seq<Inode>, o1: map<nat, Owner>, i: nat, first: nat,
                        n: nat) {
    && Owned(sb, u0, b0, n0, o0) && Owned(sb, u1, b1, n1, o1) && i < |n0| == |n1|
    && OthersKeep(b0, n0, b1, n1, i)
    && Filled(Ptrs(b0, n0[i]), Ptrs(b1, n1[i]), first, n)
  }

  /** A block in use stays in use, by the pointer it had. */
  lemma KeptBlock(sb: Superblock, u0: seq<bool>, b0: seq<Bytes>, n0: seq<Inode>, o0: map<nat, Owner>,
                  u1: seq<bool>, b1: seq<Bytes>, n1: seq<Inode>, o1: map<nat, Owner>, i: nat, first: nat, n: nat,
                  a: nat)
    requires Wrote(sb, u0, b0, n0, o0, u1, b1, n1, o1, i, first, n) && a in o0
    ensures a < sb.size && u0[a] && a in o1 && o1[a] == o0[a] && u1[a]
    ensures o0[a].k <= MAXFILE && (o0[a].i == i ==> Ptrs(b0, n0[i])[o0[a].k] == a != 0)
  {
    hide Ptr;
    assert OwnOk(sb, u0, b0, n0, o0, a);
    var x, k := o0[a].i, o0[a].k;
    assert Ptr(b1, n1[x], k) == a by {
      if x == i { assert Ptrs(b0, n0[i])[k] == a && Ptrs(b1, n1[i])[k] == a; }
    }
    assert PtrOk(b1, n1, o1, x, k);
    assert OwnOk(sb, u1, b1, n1, o1, a);
  }

  /** Exactly the blocks of the new pointers are taken. */
  lemma Allocated(sb: Superblock, u0: seq<bool>, b0: seq<Bytes>, n0: seq<Inode>, o0: map<nat, Owner>,
                  u1: seq<bool>, b1: seq<Bytes>, n1: seq<Inode>, o1: map<nat, Owner>, i: nat, first: nat, n: nat)
    requires Wrote(sb, u0, b0, n0, o0, u1, b1, n1, o1, i, first, n)
    ensures var got := NewBlocks(Ptrs(b0, n0[i]), Ptrs(b1, n1[i]));
            got <= FreeBlocks(u0) && FreeBlocks(u1) == FreeBlocks(u0) - got
  {
    hide Ptr, Filled, OthersKeep;
    var p, p' := Ptrs(b0, n0[i]), Ptrs(b1, n1[i]);
    forall k: nat | k <= MAXFILE && p[k] == 0 && p'[k] != 0 ensures p'[k] < sb.size && !u0[p'[k]] && u1[p'[k]] {
      assert PtrOk(b1, n1, o1, i, k);
      assert OwnOk(sb, u1, b1, n1, o1, p'[k]);
      if p'[k] in o0 { KeptBlock(sb, u0, b0, n0, o0, u1, b1, n1, o1, i, first, n, p'[k]); }
    }
    forall a: nat | a < sb.size && u0[a] ensures u1[a] {
      if a in o0 { KeptBlock(sb, u0, b0, n0, o0, u1, b1, n1, o1, i, first, n, a); }
    }
    forall a: nat | a < sb.size && u1[a] && !u0[a] ensures a in NewBlocks(p, p') {
      Taken(sb, u0, b0, n0, o0, u1, b1, n1, o1, i, first, n, a);
    }
  }

  lemma Taken(sb: Superblock, u0: seq<bool>, b0: seq<Bytes>, n0: seq<Inode>, o0: map<nat, Owner>,
              u1: seq<bool>, b1: seq<Bytes>, n1: seq<Inode>, o1: map<nat, Owner>, i: nat, first: nat, n: nat, a: nat)
    requires Wrote(sb, u0, b0, n0, o0, u1, b1, n1, o1, i, first, n) && a < sb.size && u1[a] && !u0[a]
    ensures a in NewBlocks(Ptrs(b0, n0[i]), Ptrs(b1, n1[i]))
  {
    hide Ptr;
    var p, p' := Ptrs(b0, n0[i]), Ptrs(b1, n1[i]);
    OwnedUsed(sb, u0, b0, n0, o0);
    assert OwnOk(sb, u1, b1, n1, o1, a);
    var x, k := o1[a].i, o1[a].k;
    assert PtrOk(b0, n0, o0, x, k);
    assert Ptr(b1, n1[x], k) == a && Ptr(b0, n0[x], k) != a;
    assert x == i;
    assert p'[k] == a && p[k] == 0;
  }

  lemma NewSize(sb: Superblock, used: seq<bool>, blocks: seq<Bytes>, inodes: seq<Inode>, owner: map<nat, Owner>, i: nat,
                p: seq<nat>)
    requires Owned(sb, used, blocks, inodes, owner) && i < |inodes| && |p| == MAXFILE + 1
    ensures |NewBlocks(p, Ptrs(blocks, inodes[i]))| == |NewPtrs(p, Ptrs(blocks, inodes[i]))|
  {
    hide Ptr, Owned;
    var p' := Ptrs(blocks, inodes[i]);
    var m := map k | k in NewPtrs(p, p') :: p'[k];
    forall j, k | j in m && k in m && m[j] == m[k] ensures j == k {
      PointersDistinct(sb, used, blocks, inodes, owner, i, j, i, k);
    }
    Counting.ImageSize(m);
    assert m.Keys == NewPtrs(p, p');
    forall a | a in NewBlocks(p, p') ensures a in m.Values {
      var k: nat :| k <= MAXFILE && p[k] == 0 && p'[k] != 0 && p'[k] == a;
      assert k in m && m[k] == a;
    }
    assert m.Values == NewBlocks(p, p');
  }

  lemma ShortNeeds(sb: Superblock, u0: seq<bool>, b0: seq<Bytes>, n0: seq<Inode>, o0: map<nat, Owner>,
                   u1: seq<bool>, b1: seq<Bytes>, n1: seq<Inode>, o1: map<nat, Owner>, i: nat, first: nat, n: nat,
                   all: nat)
    requires Wrote(sb, u0, b0, n0, o0, u1, b1, n1, o1, i, first, n) && n < all
    requires NoBlock(Ptrs(b1, n1[i]), first + n) && FreeBlocks(u1) == {}
    requires Ptrs(b1, n1[i])[MAXFILE] != Ptrs(b0, n0[i])[MAXFILE] ==> PastDirect(first, all)
    ensures |FreeBlocks(u0)| < |Needs(Ptrs(b0, n0[i]), first, all)|
  {
    hide Ptr, Owned, OthersKeep;
    var p, p' := Ptrs(b0, n0[i]), Ptrs(b1, n1[i]);
    Allocated(sb, u0, b0, n0, o0, u1, b1, n1, o1, i, first, n);
    NewSize(sb, u1, b1, n1, o1, i, p);
    forall a | a in FreeBlocks(u0) ensures a in NewBlocks(p, p') { assert a !in FreeBlocks(u0) - NewBlocks(p, p'); }
    assert FreeBlocks(u0) == NewBlocks(p, p');
    assert first + n in Needs(p, first, all) && NewPtrs(p, p') <= Needs(p, first, all) - {first + n};
    Counting.SubsetSize(NewPtrs(p, p'), Needs(p, first, all) - {first + n});
  }

  lemma WholeNeeds(sb: Superblock, u0: seq<bool>, b0: seq<Bytes>, n0: seq<Inode>, o0: map<nat, Owner>,
                   u1: seq<bool>, b1: seq<Bytes>, n1: seq<Inode>, o1: map<nat, Owner>, i: nat, first: nat, n: nat)
    requires Wrote(sb, u0, b0, n0, o0, u1, b1, n1, o1, i, first, n)
    requires Ptrs(b1, n1[i])[MAXFILE] != Ptrs(b0, n0[i])[MAXFILE] ==> PastDirect(first, n)
    ensures NewPtrs(Ptrs(b0, n0[i]), Ptrs(b1, n1[i])) == Needs(Ptrs(b0, n0[i]), first, n)
    ensures |Needs(Ptrs(b0, n0[i]), first, n)| <= |FreeBlocks(u0)|
  {
    hide Ptr, Owned, OthersKeep;
    var p, p' := Ptrs(b0, n0[i]), Ptrs(b1, n1[i]);
    Allocated(sb, u0, b0, n0, o0, u1, b1, n1, o1, i, first, n);
    NewSize(sb, u1, b1, n1, o1, i, p);
    if PastDirect(first, n) { assert p'[first + n - 1] != 0 && p'[MAXFILE] != 0; }
    assert NewPtrs(p, p') == Needs(p, first, n);
    Counting.SubsetSize(NewBlocks(p, p'), FreeBlocks(u0));
  }

  /** A write is complete exactly if there are as many free blocks as it needs. */
  lemma CompleteIff(sb: Superblock, u0: seq<bool>, b0: seq<Bytes>, n0: seq<Inode>, o0: map<nat, Owner>,
                    u1: seq<bool>, b1: seq<Bytes>, n1: seq<Inode>, o1: map<nat, Owner>, i: nat, off: nat, n: nat,
                    r: nat, was: set<nat>, iblock: nat, now: set<nat>)
    requires Owned(sb, u0, b0, n0, o0) && Owned(sb, u1, b1, n1, o1) && i < |n0| == |n1| && r <= n
    requires WroteBlocks(sb, b0, n0, b1, n1, i, off, n, r, was, iblock, now) && (r < n ==> FreeBlocks(u1) == {})
    ensures r == n <==> |Needs(Ptrs(b0, n0[i]), off / BSIZE, Blocks(off, n))| <= |FreeBlocks(u0)|
  {
    hide Ptr, Owned, OthersKeep, Needs, FreeBlocks, Filled, WriteLogs;
    if r < n {
      ShortNeeds(sb, u0, b0, n0, o0, u1, b1, n1, o1, i, off / BSIZE, Blocks(off, r), Blocks(off, n));
    } else {
      WholeNeeds(sb, u0, b0, n0, o0, u1, b1, n1, o1, i, off / BSIZE, Blocks(off, n));
    }
  }

  /** With just as many free blocks as a write needs, it takes them all. */
  lemma TakesAll(sb: Superblock, u0: seq<bool>, b0: seq<Bytes>, n0: seq<Inode>, o0: map<nat, Owner>,
                 u1: seq<bool>, b1: seq<Bytes>, n1: seq<Inode>, o1: map<nat, Owner>, i: nat, first: nat, n: nat)
    requires Wrote(sb, u0, b0, n0, o0, u1, b1, n1, o1, i, first, n) && PastDirect(first, n)
    requires |FreeBlocks(u0)| == |Needs(Ptrs(b0, n0[i]), first, n)|
    ensures NewBlocks(Ptrs(b0, n0[i]), Ptrs(b1, n1[i])) == FreeBlocks(u0)
  {
    hide Ptr, Owned, OthersKeep, Needs, NewPtrs, NewBlocks, FreeBlocks, Filled;
    var p, p' := Ptrs(b0, n0[i]), Ptrs(b1, n1[i]);
    WholeNeeds(sb, u0, b0, n0, o0, u1, b1, n1, o1, i, first, n);
    Allocated(sb, u0, b0, n0, o0, u1, b1, n1, o1, i, first, n);
    NewSize(sb, u1, b1, n1, o1, i, p);
    Counting.SubsetSize(NewBlocks(p, p'), FreeBlocks(u0));
  }

  ghost function BitmapOf(sb: Superblock, s: set<nat>): (r: set<nat>) {
    set a | a in s :: BBlock(sb, a)
  }

  /** The blocks there were already among file blocks [first, first + n). */
  ghost function OldBlocks(p: seq<nat>, first: nat, n: nat): (s: set<nat>) {
    set k: nat | k < |p| && first <= k < first + n && p[k] != 0 :: p[k]
  }

  /** A write that makes the indirect block logs the blocks it fills, the blocks it takes and their bitmap blocks. */
  lemma LogsExactly(sb: Superblock, p: seq<nat>, p': seq<nat>, first: nat, n: nat)
    requires Filled(p, p', first, n) && p[MAXFILE] == 0 && PastDirect(first, n)
    ensures var got := NewBlocks(p, p');
            WriteLogs(sb, p, p', first, n) == OldBlocks(p, first, n) + got + BitmapOf(sb, got)
  {
    hide BBlock;
    var got := NewBlocks(p, p');
    var l, r := WriteLogs(sb, p, p', first, n), OldBlocks(p, first, n) + got + BitmapOf(sb, got);
    var ind := p'[MAXFILE];
    assert p'[first + n - 1] != 0 && ind != 0 && ind in got;
    assert Fresh(sb, p[MAXFILE], ind) == {BBlock(sb, ind), ind};
    forall k: nat | k <= MAXFILE && p[k] == 0 && p'[k] != 0 ensures p'[k] in l && BBlock(sb, p'[k]) in l {
      if k != MAXFILE {
        assert p'[k] in DataLogs(p', first, n);
        assert BBlock(sb, p'[k]) in BitLogs(sb, p, p', first, n);
      }
    }
    forall k: nat | k <= MAXFILE && first <= k < first + n
      ensures p'[k] in r && (p[k] == 0 ==> BBlock(sb, p'[k]) in r)
    {
      if p[k] == 0 { assert p'[k] in got; } else { assert p[k] in OldBlocks(p, first, n); }
    }
    forall k: nat | k <= MAXFILE && first <= k < first + n && p[k] != 0 ensures p[k] in l {
      assert p'[k] in DataLogs(p', first, n);
    }
    assert l <= r && r <= l;
  }

  /** On a disk with a single bitmap block, as one of FSSIZE blocks is, a chunk of filewrite logs at most seven. */
  lemma SmallDisk(sb: Superblock, b0: seq<Bytes>, n0: seq<Inode>, u1: seq<bool>, b1: seq<Bytes>, n1: seq<Inode>,
                  o1: map<nat, Owner>, i: nat, off: nat, n: nat, r: nat, iblock: nat, logged: set<nat>)
    requires sb.size <= BPB && Owned(sb, u1, b1, n1, o1) && r <= n <= CHUNK
    requires WroteBlocks(sb, b0, n0, b1, n1, i, off, n, r, {}, iblock, logged)
    ensures |logged| <= 7
  {
    hide Ptr, OthersKeep, NoBlock;
    var p, p', first, k := Ptrs(b0, n0[i]), Ptrs(b1, n1[i]), off / BSIZE, Blocks(off, r);
    forall j: nat | j <= MAXFILE && p'[j] != 0 ensures BBlock(sb, p'[j]) == sb.bmapstart {
      assert PtrOk(b1, n1, o1, i, j);
      assert OwnOk(sb, u1, b1, n1, o1, p'[j]);
    }
    var D, rest := DataLogs(p', first, k), {p'[MAXFILE], sb.bmapstart, iblock};
    DataBound(p', first, k);
    assert BitLogs(sb, p, p', first, k) <= rest;
    assert EntryLogs(p, p', first, k) + Fresh(sb, p[MAXFILE], p'[MAXFILE]) <= rest;
    assert logged <= D + rest;
    Fs.Union(D, rest);
    Counting.SubsetSize(logged, D + rest);
    FourBlocks(off, r);
  }

  lemma FourBlocks(off: nat, n: nat)
    requires n <= CHUNK
    ensures Blocks(off, n) <= 4
  {
    if n > 0 { assert (off + n - 1) / BSIZE <= off / BSIZE + 3; }
  }

  /** How many bitmap blocks the disk has. */
  function BitmapBlocks(sb: Superblock): (n: nat) {
    (sb.size + BPB - 1) / BPB
  }

  /**
   What itrunc logs: the bitmap blocks of the blocks of the file, and the inode's. Two blocks on a disk of FSSIZE, and
   within a transaction's reservation as long as there are fewer than MAXOPBLOCKS bitmap blocks.
   */
  lemma TruncLogs(sb: Superblock, used: seq<bool>, blocks: seq<Bytes>, inodes: seq<Inode>, owner: map<nat, Owner>,
                  i: nat, used': seq<bool>, iblock: nat)
    requires Owned(sb, used, blocks, inodes, owner) && FreedUpTo(used, owner, i, MAXFILE + 1, used')
    ensures BitsChanged(sb, used, used') == set a | a in owner && owner[a].i == i :: BBlock(sb, a)
    ensures |BitsChanged(sb, used, used') + {iblock}| <= BitmapBlocks(sb) + 1
  {
    var bits := BitsChanged(sb, used, used');
    forall a | a in owner && owner[a].i == i ensures BBlock(sb, a) in bits {
      assert OwnOk(sb, used, blocks, inodes, owner, a);
      assert used'[a] != used[a];
    }
    var g := seq(BitmapBlocks(sb), k requires 0 <= k => sb.bmapstart + k);
    forall b | b in bits ensures exists k :: 0 <= k < BitmapBlocks(sb) && g[k] == b {
      var a: nat :| a < |used| && a < |used'| && used'[a] != used[a] && BBlock(sb, a) == b;
      var k := a / BPB;
      assert k < BitmapBlocks(sb);
      assert g[k] == sb.bmapstart + k;
    }
    ImageBound(g, 0, BitmapBlocks(sb), bits);
    Fs.Union(bits, {iblock});
  }

  // ----- images

  const SIZE: nat := 24577
  const FILES: nat := 1366

  /**
   Blocks `lo` to 8192 and the last two of the disk are free, in all four bitmap blocks. All other data blocks belong
   to files of NDIRECT blocks each.
   */
  predicate IsFree(lo: nat, a: nat) {
    lo <= a <= 8192 || a == 24575 || a == 24576
  }

  function Super(lo: nat): (sb: Superblock)
    requires lo >= 8190
  {
    Superblock(SIZE, 33, lo - 14, lo - 10)
  }

  /** The n-th data block that is not free, and which one a block is. */
  function DataBlock(lo: nat, n: nat): (a: nat)
    requires lo >= 8190
  {
    if n < 10 then lo - 10 + n else 8183 + n
  }

  function IndexOf(lo: nat, a: nat): (n: int) {
    if a < lo then a - (lo - 10) else a - 8183
  }

  function Used(lo: nat): (used: seq<bool>)
    ensures |used| == SIZE && forall a: nat :: a < SIZE ==> (used[a] <==> !IsFree(lo, a))
  {
    seq(SIZE, a requires 0 <= a => !IsFree(lo, a))
  }

  function Zeroed(): (blocks: seq<Bytes>)
    ensures |blocks| == SIZE && forall a :: 0 <= a < SIZE ==> blocks[a] == ZeroBlock()
  {
    seq(SIZE, _ => ZeroBlock())
  }

  function Addr(lo: nat, j: nat, k: nat): (a: nat)
    requires lo >= 8190
  {
    if k < NDIRECT then DataBlock(lo, NDIRECT * j + k) else 0
  }

  function Addrs(lo: nat, j: nat): (addrs: seq<nat>)
    requires lo >= 8190
    ensures |addrs| == NDIRECT + 1 && addrs[NDIRECT] == 0
    ensures forall k: nat :: k < NDIRECT ==> addrs[k] == DataBlock(lo, NDIRECT * j + k)
  {
    seq(NDIRECT + 1, k requires 0 <= k => Addr(lo, j, k))
  }

  function Inodes(lo: nat): (inodes: seq<Inode>)
    requires lo >= 8190
    ensures |inodes| == FILES && forall j: nat :: j < FILES ==> inodes[j] == Inode(Addrs(lo, j), NDIRECT * BSIZE)
  {
    seq(FILES, j requires 0 <= j => Inode(Addrs(lo, j), NDIRECT * BSIZE))
  }

  ghost function Owners(lo: nat): (owner: map<nat, Owner>)
    requires 8190 <= lo <= 8191
  {
    map a: nat | lo - 10 <= a < SIZE && !IsFree(lo, a) :: Owner(IndexOf(lo, a) / NDIRECT, IndexOf(lo, a) % NDIRECT)
  }

  ghost function Contents(): (contents: seq<Bytes>)
    ensures |contents| == FILES && forall j :: 0 <= j < FILES ==> contents[j] == Zeros(NDIRECT * BSIZE)
  {
    seq(FILES, _ => Zeros(NDIRECT * BSIZE))
  }

  lemma ImagePtr(lo: nat, j: nat, k: nat)
    requires 8190 <= lo <= 8191 && j < FILES && k <= MAXFILE
    ensures Ptr(Zeroed(), Inodes(lo)[j], k) == if k < NDIRECT then DataBlock(lo, NDIRECT * j + k) else 0
  {
  }

  lemma ImageOwned(lo: nat)
    requires 8190 <= lo <= 8191
    ensures Owned(Super(lo), Used(lo), Zeroed(), Inodes(lo), Owners(lo))
  {
    hide Ptr;
    var sb, used, blocks, inodes, owner := Super(lo), Used(lo), Zeroed(), Inodes(lo), Owners(lo);
    forall j: nat, k: nat | j < |inodes| && k <= MAXFILE ensures PtrOk(blocks, inodes, owner, j, k) {
      ImagePtr(lo, j, k);
    }
    forall a | a in owner ensures OwnOk(sb, used, blocks, inodes, owner, a) {
      ImagePtr(lo, owner[a].i, owner[a].k);
    }
  }

  lemma ImageContains(lo: nat)
    requires 8190 <= lo <= 8191
    ensures Contains(Zeroed(), Inodes(lo), Contents())
  {
    hide Ptr;
    forall j: nat, k: nat | j < FILES && k < NDIRECT * BSIZE ensures Holds(Zeroed(), Inodes(lo)[j], k, 0) {
      ImagePtr(lo, j, k / BSIZE);
    }
  }

  lemma FreeIs(lo: nat)
    requires 8190 <= lo <= 8191
    ensures FreeBlocks(Used(lo)) == (if lo == 8191 then {} else {8190}) + {8191, 8192, 24575, 24576}
  {
  }

  lemma BitsAre(lo: nat)
    requires 8190 <= lo <= 8191
    ensures BitmapOf(Super(lo), FreeBlocks(Used(lo))) == {lo - 14, lo - 13, lo - 12, lo - 11}
  {
    FreeIs(lo);
    hide FreeBlocks, Used;
    var sb, bits := Super(lo), BitmapOf(Super(lo), FreeBlocks(Used(lo)));
    assert BBlock(sb, 8191) in bits && BBlock(sb, 8192) in bits;
    assert BBlock(sb, 24575) in bits && BBlock(sb, 24576) in bits;
  }

  lemma FreeInImage(lo: nat)
    requires 8190 <= lo <= 8191
    ensures var free := FreeBlocks(Used(lo));
            && |free| == 8195 - lo
            && 8194 !in free && (forall a :: a in free ==> a >= lo)
            && var bits := BitmapOf(Super(lo), free);
            |bits| == 4 && forall b :: b in bits ==> 33 < b < lo
  {
    hide FreeBlocks, Used, BitmapOf;
    FreeIs(lo);
    BitsAre(lo);
  }

  lemma {:induction false} NeedsSize(p: seq<nat>, n: nat)
    requires |p| == MAXFILE + 1 && p[NDIRECT - 1] != 0 && (forall k :: NDIRECT <= k <= MAXFILE ==> p[k] == 0)
    requires 1 < n < MAXFILE - NDIRECT
    ensures |Needs(p, NDIRECT - 1, n)| == n
  {
    if n == 2 {
      assert p[NDIRECT] == 0 && p[MAXFILE] == 0;
      assert Needs(p, NDIRECT - 1, n) == {NDIRECT, MAXFILE};
    } else {
      NeedsSize(p, n - 1);
      assert Needs(p, NDIRECT - 1, n) == Needs(p, NDIRECT - 1, n - 1) + {NDIRECT + n - 2};
    }
  }

  /** A write that starts in the last direct block of file 0 and needs exactly the free blocks there are. */
  lemma Reached(lo: nat, u1: seq<bool>, b1: seq<Bytes>, n1: seq<Inode>, o1: map<nat, Owner>, off: nat, n: nat, r: nat,
                logged: set<nat>)
    requires 8190 <= lo <= 8191 && off / BSIZE == NDIRECT - 1 && Blocks(off, n) == 8195 - lo && r <= n
    requires Owned(Super(lo), u1, b1, n1, o1) && (r < n ==> FreeBlocks(u1) == {})
    requires WroteBlocks(Super(lo), Zeroed(), Inodes(lo), b1, n1, 0, off, n, r, {}, 33, logged)
    ensures r == n && |logged| == Blocks(off, n) + 6
  {
    hide Ptr, Owned, OthersKeep, WriteLogs, Blocks, Filled, Needs, FreeBlocks, BitmapOf, NewBlocks;
    var p, p' := Ptrs(Zeroed(), Inodes(lo)[0]), Ptrs(b1, n1[0]);
    ImageOwned(lo);
    FreeInImage(lo);
    forall k: nat | k <= MAXFILE ensures p[k] == if k < NDIRECT then DataBlock(lo, k) else 0 { ImagePtr(lo, 0, k); }
    NeedsSize(p, Blocks(off, n));
    CompleteIff(Super(lo), Used(lo), Zeroed(), Inodes(lo), Owners(lo), u1, b1, n1, o1, 0, off, n, r, {}, 33, logged);
    TakesAll(Super(lo), Used(lo), Zeroed(), Inodes(lo), Owners(lo), u1, b1, n1, o1, 0, off / BSIZE, Blocks(off, n));
    LogsExactly(Super(lo), p, p', off / BSIZE, Blocks(off, n));
    Count(lo, p, Blocks(off, n));
  }

  lemma Count(lo: nat, p: seq<nat>, n: nat)
    requires 8190 <= lo <= 8191 && |p| == MAXFILE + 1 && n > 0
    requires forall k: nat :: k <= MAXFILE ==> p[k] == if k < NDIRECT then DataBlock(lo, k) else 0
    ensures var free := FreeBlocks(Used(lo));
            |{} + (OldBlocks(p, NDIRECT - 1, n) + free + BitmapOf(Super(lo), free)) + {33}| == 8201 - lo
  {
    hide FreeBlocks, BitmapOf, OldBlocks;
    FreeInImage(lo);
    LastDirect(lo, p, n);
    var free := FreeBlocks(Used(lo));
    Apart(lo, free, BitmapOf(Super(lo), free));
  }

  lemma LastDirect(lo: nat, p: seq<nat>, n: nat)
    requires 8190 <= lo <= 8191 && |p| == MAXFILE + 1 && n > 0
    requires forall k: nat :: k <= MAXFILE ==> p[k] == if k < NDIRECT then DataBlock(lo, k) else 0
    ensures OldBlocks(p, NDIRECT - 1, n) == {8194}
  {
    assert p[NDIRECT - 1] in OldBlocks(p, NDIRECT - 1, n);
  }

  lemma Apart(lo: nat, free: set<nat>, bits: set<nat>)
    requires 8190 <= lo <= 8191 && 8194 !in free && (forall a :: a in free ==> a >= lo)
    requires forall b :: b in bits ==> 33 < b < lo
    ensures |{} + ({8194} + free + bits) + {33}| == |free| + |bits| + 2
  {
    var data := {8194} + free;
    assert data !! bits && |data + bits| == |data| + |bits|;
    assert {} + (data + bits) == data + bits;
  }

  /** A full chunk of filewrite can log MAXOPBLOCKS blocks. */
  method TightTransaction() returns (r: int, fs: FileSystem)
    ensures fs.Valid() && r == CHUNK && |fs.logged| == MAXOPBLOCKS
  {
    hide Owned, Contains, WroteBlocks;
    ImageOwned(8191);
    ImageContains(8191);
    fs := new FileSystem(Super(8191), Used(8191), Zeroed(), Inodes(8191), Owners(8191), Contents());
    r := fs.WriteTransaction(0, 11 * BSIZE + 1, Zeros(CHUNK));
    Reached(8191, fs.used, fs.blocks, fs.inodes, fs.owner, 11 * BSIZE + 1, CHUNK, r, fs.logged);
  }

  /** Two bytes more and it would not fit. */
  method LongerChunk() returns (r: int, fs: FileSystem)
    ensures fs.Valid() && r == CHUNK + 2 && |fs.logged| == MAXOPBLOCKS + 1
  {
    hide Owned, Contains, WroteBlocks;
    ImageOwned(8190);
    ImageContains(8190);
    fs := new FileSystem(Super(8190), Used(8190), Zeroed(), Inodes(8190), Owners(8190), Contents());
    r := fs.Writei(0, 12 * BSIZE - 1, Zeros(CHUNK + 2));
    Reached(8190, fs.used, fs.blocks, fs.inodes, fs.owner, 12 * BSIZE - 1, CHUNK + 2, r, fs.logged);
  }
}
