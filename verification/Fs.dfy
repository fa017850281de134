/**
 Block allocation, block maps, truncation and file contents in xv6-riscv/kernel/fs.c, and
 filewrite of xv6-riscv/kernel/file.c.

 Blocks are the logical blocks a bread returns. A block holds 1024 bytes; an indirect block
 holds 256 little-endian block numbers in them. `used` is the allocation bitmap.
 */
module Fs {
  import Counting

  type Bytes = seq<nat>

  const BSIZE: nat := 1024
  const NDIRECT: nat := 12
  const NINDIRECT: nat := 256
  const MAXFILE: nat := 268          // NDIRECT + NINDIRECT; also names the indirect block itself
  const BPB: nat := 8192             // bitmap bits per block
  const IPB: nat := 16               // inodes per block
  const MAXOPBLOCKS: nat := 10
  const UINT: nat := 0x1_0000_0000

  /** The layout of the disk: blocks below `datastart` hold the file system's own data. */
  datatype Superblock = Superblock(size: nat, inodestart: nat, bmapstart: nat, datastart: nat)

  datatype Inode = Inode(addrs: seq<nat>, size: nat)

  function Zeros(n: nat): (z: seq<nat>)
    ensures |z| == n && forall i :: 0 <= i < n ==> z[i] == 0
  {
    seq(n, _ => 0)
  }

  // ----- indirect blocks

  function Word(blk: Bytes, j: nat): (w: nat)
    requires |blk| == BSIZE && j < NINDIRECT
  {
    blk[4 * j] + 256 * blk[4 * j + 1] + 65536 * blk[4 * j + 2] + 16777216 * blk[4 * j + 3]
  }

  function SetWord(blk: Bytes, j: nat, w: nat): (r: Bytes)
    requires |blk| == BSIZE && j < NINDIRECT && w < UINT
    ensures |r| == BSIZE
  {
    blk[4 * j := w % 256][4 * j + 1 := w / 256 % 256][4 * j + 2 := w / 65536 % 256][4 * j + 3 := w / 16777216]
  }

  lemma WordSet(blk: Bytes, j: nat, w: nat, k: nat)
    requires |blk| == BSIZE && j < NINDIRECT && w < UINT && k < NINDIRECT
    ensures Word(SetWord(blk, j, w), k) == if j == k then w else Word(blk, k)
  {
    if j == k {
      Digits(w);
    }
  }

  lemma Digits(w: nat)
    ensures w == w % 256 + 256 * (w / 256 % 256) + 65536 * (w / 65536 % 256) + 16777216 * (w / 16777216)
  {
    assert w / 256 / 256 == w / 65536;
    assert w / 65536 / 256 == w / 16777216;
  }

  function ZeroBlock(): (blk: Bytes)
    ensures |blk| == BSIZE && forall i :: 0 <= i < BSIZE ==> blk[i] == 0
  {
    seq(BSIZE, _ => 0)
  }

  /** A fresh indirect block has no stale entries. */
  lemma ZeroWord(j: nat)
    requires j < NINDIRECT
    ensures Word(ZeroBlock(), j) == 0
  {
  }

  // ----- block pointers

  /** Pointer k of an inode: data block k, or the indirect block for k == MAXFILE. */
  ghost function Ptr(blocks: seq<Bytes>, ip: Inode, k: nat): (a: nat) {
    if |ip.addrs| != NDIRECT + 1 then 0
    else if k < NDIRECT then ip.addrs[k]
    else if k == MAXFILE then ip.addrs[NDIRECT]
    else if k < MAXFILE && 0 < ip.addrs[NDIRECT] < |blocks| && |blocks[ip.addrs[NDIRECT]]| == BSIZE
    then Word(blocks[ip.addrs[NDIRECT]], k - NDIRECT)
    else 0
  }

  datatype Owner = Owner(i: nat, k: nat)

  ghost predicate PtrOk(blocks: seq<Bytes>, inodes: seq<Inode>, owner: map<nat, Owner>, i: nat, k: nat) {
    i < |inodes| && (Ptr(blocks, inodes[i], k) != 0 ==>
      Ptr(blocks, inodes[i], k) in owner && owner[Ptr(blocks, inodes[i], k)] == Owner(i, k))
  }

  ghost predicate OwnOk(sb: Superblock, used: seq<bool>, blocks: seq<Bytes>, inodes: seq<Inode>,
                        owner: map<nat, Owner>, a: nat) {
    && a in owner && sb.datastart <= a < sb.size && a < |used| && used[a]
    && owner[a].i < |inodes| && owner[a].k <= MAXFILE && Ptr(blocks, inodes[owner[a].i], owner[a].k) == a
  }

  ghost predicate Sized(sb: Superblock, used: seq<bool>, blocks: seq<Bytes>, inodes: seq<Inode>) {
    && 0 < sb.datastart <= sb.size < UINT && |used| == |blocks| == sb.size
    && (forall a :: 0 <= a < sb.size ==> |blocks[a]| == BSIZE)
    && (forall i :: 0 <= i < |inodes| ==> |inodes[i].addrs| == NDIRECT + 1)
  }

  /**
   Every nonzero pointer owns its block, every owned block is used, and every used data block is owned.
   An owner is unique, so no two pointers hold the same block.
   */
  ghost predicate Owned(sb: Superblock, used: seq<bool>, blocks: seq<Bytes>, inodes: seq<Inode>,
                        owner: map<nat, Owner>) {
    && Sized(sb, used, blocks, inodes)
    && (forall i: nat, k: nat :: i < |inodes| && k <= MAXFILE ==> PtrOk(blocks, inodes, owner, i, k))
    && (forall a :: a in owner ==> OwnOk(sb, used, blocks, inodes, owner, a))
    && (forall a: nat :: a < sb.size && used[a] ==> a < sb.datastart || a in owner)
    && (forall a: nat :: a < sb.datastart ==> used[a])
  }

  /** No two pointers of any files hold the same block. */
  lemma PointersDistinct(sb: Superblock, used: seq<bool>, blocks: seq<Bytes>, inodes: seq<Inode>,
                         owner: map<nat, Owner>,
                         i: nat, k: nat, i': nat, k': nat)
    requires Owned(sb, used, blocks, inodes, owner)
    requires i < |inodes| && i' < |inodes| && k <= MAXFILE && k' <= MAXFILE
    requires Ptr(blocks, inodes[i], k) == Ptr(blocks, inodes[i'], k') != 0
    ensures i == i' && k == k'
  {
    assert PtrOk(blocks, inodes, owner, i, k) && PtrOk(blocks, inodes, owner, i', k');
  }

  // ----- allocating a block for a pointer

  /** All pointers but (i, k) are the same; (i, k) goes from 0 to the free block `a`, which is now zero. */
  ghost predicate Gains(blocks: seq<Bytes>, inodes: seq<Inode>, blocks': seq<Bytes>, inodes': seq<Inode>, i: nat,
                        k: nat, a: nat) {
    && |inodes'| == |inodes| && i < |inodes| && k <= MAXFILE
    && Ptr(blocks, inodes[i], k) == 0 && Ptr(blocks', inodes'[i], k) == a
    && (forall x: nat, y: nat :: x < |inodes| && y <= MAXFILE && !(x == i && y == k) ==>
          Ptr(blocks', inodes'[x], y) == Ptr(blocks, inodes[x], y))
  }

  lemma OwnedUsed(sb: Superblock, used: seq<bool>, blocks: seq<Bytes>, inodes: seq<Inode>, owner: map<nat, Owner>)
    requires Owned(sb, used, blocks, inodes, owner)
    ensures forall a :: a in owner ==> sb.datastart <= a < sb.size && used[a]
  {
    forall a | a in owner ensures sb.datastart <= a < sb.size && used[a] {
      assert OwnOk(sb, used, blocks, inodes, owner, a);
    }
  }

  lemma GainsOwned(sb: Superblock, used: seq<bool>, blocks: seq<Bytes>, inodes: seq<Inode>, owner: map<nat, Owner>,
                   blocks': seq<Bytes>, inodes': seq<Inode>, i: nat, k: nat, a: nat)
    requires Owned(sb, used, blocks, inodes, owner) && a < sb.size && !used[a]
    requires Gains(blocks, inodes, blocks', inodes', i, k, a) && Sized(sb, used, blocks', inodes')
    ensures a != 0 && Owned(sb, used[a := true], blocks', inodes', owner[a := Owner(i, k)])
  {
    var owner' := owner[a := Owner(i, k)];
    OwnedUsed(sb, used, blocks, inodes, owner);
    forall x: nat, y: nat | x < |inodes'| && y <= MAXFILE ensures PtrOk(blocks', inodes', owner', x, y) {
      assert PtrOk(blocks, inodes, owner, x, y);
    }
    forall b | b in owner' ensures OwnOk(sb, used[a := true], blocks', inodes', owner', b) {
      if b != a { assert OwnOk(sb, used, blocks, inodes, owner, b); }
    }
  }

  /** Zeroing a free block changes no pointer. */
  lemma ZeroFree(sb: Superblock, used: seq<bool>, blocks: seq<Bytes>, inodes: seq<Inode>, owner: map<nat, Owner>,
                 a: nat)
    requires Owned(sb, used, blocks, inodes, owner) && a < sb.size && !used[a]
    ensures forall x: nat, y: nat :: x < |inodes| && y <= MAXFILE ==>
              Ptr(blocks[a := ZeroBlock()], inodes[x], y) == Ptr(blocks, inodes[x], y)
  {
    forall x: nat, y: nat | x < |inodes| && y <= MAXFILE
      ensures Ptr(blocks[a := ZeroBlock()], inodes[x], y) == Ptr(blocks, inodes[x], y)
    {
      NotIndirect(sb, used, blocks, inodes, owner, x, a);
    }
  }

  lemma NotIndirect(sb: Superblock, used: seq<bool>, blocks: seq<Bytes>, inodes: seq<Inode>, owner: map<nat, Owner>,
                    x: nat, a: nat)
    requires Owned(sb, used, blocks, inodes, owner) && x < |inodes|
    requires a < sb.size && (!used[a] || (a in owner && owner[a].k < MAXFILE))
    ensures inodes[x].addrs[NDIRECT] == 0 || inodes[x].addrs[NDIRECT] != a
  {
    assert PtrOk(blocks, inodes, owner, x, MAXFILE);
    if a in owner { assert OwnOk(sb, used, blocks, inodes, owner, a); }
  }

  /** A direct block or the indirect block itself. */
  lemma GainsInode(sb: Superblock, used: seq<bool>, blocks: seq<Bytes>, inodes: seq<Inode>, owner: map<nat, Owner>,
                   i: nat, k: nat, a: nat)
    requires Owned(sb, used, blocks, inodes, owner) && a < sb.size && !used[a] && i < |inodes| && k <= NDIRECT
    requires inodes[i].addrs[k] == 0
    ensures var ip := inodes[i].(addrs := inodes[i].addrs[k := a]);
            Gains(blocks, inodes, blocks[a := ZeroBlock()], inodes[i := ip], i, if k == NDIRECT then MAXFILE else k, a)
  {
    ZeroFree(sb, used, blocks, inodes, owner, a);
    var ip := inodes[i].(addrs := inodes[i].addrs[k := a]);
    var blocks' := blocks[a := ZeroBlock()];
    forall x: nat, y: nat | x < |inodes| && y <= MAXFILE && !(x == i && y == if k == NDIRECT then MAXFILE else k)
      ensures Ptr(blocks', inodes[i := ip][x], y) == Ptr(blocks, inodes[x], y)
    {
      assert Ptr(blocks', inodes[x], y) == Ptr(blocks, inodes[x], y);
      if x == i && k == NDIRECT && NDIRECT <= y < MAXFILE { ZeroWord(y - NDIRECT); }
    }
  }

  /** An entry of the indirect block. */
  lemma GainsEntry(sb: Superblock, used: seq<bool>, blocks: seq<Bytes>, inodes: seq<Inode>, owner: map<nat, Owner>,
                   i: nat, k: nat, a: nat)
    requires Owned(sb, used, blocks, inodes, owner) && a < sb.size && !used[a] && i < |inodes| && NDIRECT <= k < MAXFILE
    requires inodes[i].addrs[NDIRECT] != 0 && Ptr(blocks, inodes[i], k) == 0
    ensures var ind := inodes[i].addrs[NDIRECT];
            && ind < sb.size && ind != a
            && var blocks' := blocks[a := ZeroBlock()][ind := SetWord(blocks[ind], k - NDIRECT, a)];
            Gains(blocks, inodes, blocks', inodes, i, k, a)
  {
    var ind := inodes[i].addrs[NDIRECT];
    assert PtrOk(blocks, inodes, owner, i, MAXFILE);
    assert OwnOk(sb, used, blocks, inodes, owner, ind);
    ZeroFree(sb, used, blocks, inodes, owner, a);
    var blocks' := blocks[a := ZeroBlock()][ind := SetWord(blocks[ind], k - NDIRECT, a)];
    forall x: nat, y: nat | x < |inodes| && y <= MAXFILE
      ensures Ptr(blocks', inodes[x], y) == if x == i && y == k then a else Ptr(blocks, inodes[x], y)
    {
      assert Ptr(blocks[a := ZeroBlock()], inodes[x], y) == Ptr(blocks, inodes[x], y);
      if x != i { OtherIndirect(sb, used, blocks, inodes, owner, i, x); }
      if NDIRECT <= y < MAXFILE { WordSet(blocks[ind], k - NDIRECT, a, y - NDIRECT); }
    }
  }

  lemma OtherIndirect(sb: Superblock, used: seq<bool>, blocks: seq<Bytes>, inodes: seq<Inode>, owner: map<nat, Owner>,
                      i: nat, x: nat)
    requires Owned(sb, used, blocks, inodes, owner) && i < |inodes| && x < |inodes| && i != x
    requires inodes[i].addrs[NDIRECT] != 0
    ensures inodes[x].addrs[NDIRECT] != inodes[i].addrs[NDIRECT]
  {
    assert PtrOk(blocks, inodes, owner, i, MAXFILE) && PtrOk(blocks, inodes, owner, x, MAXFILE);
  }

  // ----- what bmap may change

  /** Data pointers other than (i, bn) and the bytes of data blocks are as before. */
  ghost predicate Extended(blocks: seq<Bytes>, inodes: seq<Inode>, owner: map<nat, Owner>,
                           blocks': seq<Bytes>, inodes': seq<Inode>, owner': map<nat, Owner>, i: nat, bn: nat) {
    && |inodes'| == |inodes| && |blocks'| == |blocks|
    && (forall x :: 0 <= x < |inodes| ==> inodes'[x].size == inodes[x].size)
    && (forall x: nat, y: nat :: x < |inodes| && y < MAXFILE && !(x == i && y == bn) ==>
          Ptr(blocks', inodes'[x], y) == Ptr(blocks, inodes[x], y))
    && (forall a :: a in owner ==> a in owner' && owner'[a] == owner[a])
    && (forall a :: a in owner && owner[a].k < MAXFILE && a < |blocks| ==> blocks'[a] == blocks[a])
  }

  lemma ExtendedTwice(b0: seq<Bytes>, n0: seq<Inode>, o0: map<nat, Owner>, b1: seq<Bytes>, n1: seq<Inode>,
                      o1: map<nat, Owner>,
                      b2: seq<Bytes>, n2: seq<Inode>, o2: map<nat, Owner>, i: nat, bn: nat)
    requires Extended(b0, n0, o0, b1, n1, o1, i, bn) && Extended(b1, n1, o1, b2, n2, o2, i, bn)
    ensures Extended(b0, n0, o0, b2, n2, o2, i, bn)
  {
  }

  /** The bitmap block that holds the bit of block `a`. */
  function BBlock(sb: Superblock, a: nat): (b: nat) {
    a / BPB + sb.bmapstart
  }

  /** Bitmap blocks hold BPB bits each, one after the other from the start of the bitmap. */
  lemma BitmapBlock(sb: Superblock, a: nat)
    ensures BBlock(sb, a) >= sb.bmapstart
    ensures BPB * (BBlock(sb, a) - sb.bmapstart) <= a < BPB * (BBlock(sb, a) - sb.bmapstart + 1)
  {
  }

  /**
   Write-ahead: every block that differs, and the bitmap block of every bit that differs, has been passed to
   log_write; of the inodes only `i` differs.
   */
  ghost predicate Logs(sb: Superblock, used0: seq<bool>, blocks0: seq<Bytes>, inodes0: seq<Inode>,
                       used: seq<bool>, blocks: seq<Bytes>, inodes: seq<Inode>, i: nat, logged: set<nat>) {
    && |used| == |used0| && |blocks| == |blocks0| && |inodes| == |inodes0|
    && (forall b: nat :: b < |blocks| ==> blocks[b] == blocks0[b] || b in logged)
    && BitsLogged(sb, used0, used, logged)
    && (forall x: nat :: x < |inodes| && x != i ==> inodes[x] == inodes0[x])
  }

  /** The bitmap block of every bit that differs has been logged. */
  ghost predicate BitsLogged(sb: Superblock, used0: seq<bool>, used: seq<bool>, logged: set<nat>) {
    |used| == |used0| && forall b: nat :: b < |used| ==> used[b] == used0[b] || BBlock(sb, b) in logged
  }

  /** The bitmap blocks of the bits that differ. */
  ghost function BitsChanged(sb: Superblock, used0: seq<bool>, used: seq<bool>): (s: set<nat>) {
    set b: nat | b < |used0| && b < |used| && used[b] != used0[b] :: BBlock(sb, b)
  }

  lemma BitsSame(sb: Superblock, used: seq<bool>)
    ensures BitsChanged(sb, used, used) == {}
  {
  }

  /** One more bit is cleared. */
  lemma BitsNext(sb: Superblock, used0: seq<bool>, used: seq<bool>, a: nat)
    requires a < |used| == |used0| && used[a]
    ensures used0[a] ==> BitsChanged(sb, used0, used[a := false]) == BitsChanged(sb, used0, used) + {BBlock(sb, a)}
  {
    hide BBlock;
    var used' := used[a := false];
    if used0[a] {
      assert used'[a] != used0[a];
      forall b: nat | b < |used| && used[b] != used0[b] ensures BBlock(sb, b) in BitsChanged(sb, used0, used') {
        assert used'[b] != used0[b];
      }
    }
  }

  lemma ChangedLogged(sb: Superblock, used0: seq<bool>, used: seq<bool>, logged: set<nat>)
    requires |used| == |used0| && BitsChanged(sb, used0, used) <= logged
    ensures BitsLogged(sb, used0, used, logged)
  {
  }

  lemma MoreBitsLogged(sb: Superblock, used0: seq<bool>, used: seq<bool>, logged: set<nat>, b: nat)
    requires BitsLogged(sb, used0, used, logged)
    ensures BitsLogged(sb, used0, used, logged + {b})
  {
  }

  lemma LogsNone(sb: Superblock, used: seq<bool>, blocks: seq<Bytes>, inodes: seq<Inode>, i: nat, logged: set<nat>)
    ensures Logs(sb, used, blocks, inodes, used, blocks, inodes, i, logged)
  {
  }

  lemma LogsTwice(sb: Superblock, u0: seq<bool>, b0: seq<Bytes>, n0: seq<Inode>, u1: seq<bool>, b1: seq<Bytes>,
                  n1: seq<Inode>,
                  u2: seq<bool>, b2: seq<Bytes>, n2: seq<Inode>, i: nat, l1: set<nat>, l2: set<nat>)
    requires Logs(sb, u0, b0, n0, u1, b1, n1, i, l1) && Logs(sb, u1, b1, n1, u2, b2, n2, i, l2) && l1 <= l2
    ensures Logs(sb, u0, b0, n0, u2, b2, n2, i, l2)
  {
    forall b: nat | b < |b2| ensures b2[b] == b0[b] || b in l2 { assert b1[b] == b0[b] || b in l1; }
    forall b: nat | b < |u2| ensures u2[b] == u0[b] || BBlock(sb, b) in l2 {
      assert u1[b] == u0[b] || BBlock(sb, b) in l1;
    }
  }

  lemma LogsInode(sb: Superblock, u0: seq<bool>, b0: seq<Bytes>, n0: seq<Inode>, u1: seq<bool>, b1: seq<Bytes>,
                  n1: seq<Inode>, i: nat, logged: set<nat>, ip: Inode, b: nat)
    requires Logs(sb, u0, b0, n0, u1, b1, n1, i, logged) && i < |n1|
    ensures Logs(sb, u0, b0, n0, u1, b1, n1[i := ip], i, logged + {b})
  {
    MoreBitsLogged(sb, u0, u1, logged, b);
  }

  /** What allocating a block logs: its bitmap block, and the block itself, zeroed. */
  ghost function Fresh(sb: Superblock, was: nat, now: nat): (s: set<nat>) {
    if was == 0 && now != 0 then {BBlock(sb, now), now} else {}
  }

  /** What a bmap logs, from the indirect block and the data block before and after. */
  ghost function BmapLogs(sb: Superblock, bn: nat, ind: nat, ind': nat, a: nat, a': nat): (s: set<nat>) {
    Fresh(sb, ind, ind') + Fresh(sb, a, a') + if a == 0 && a' != 0 && bn >= NDIRECT then {ind'} else {}
  }

  // ----- the pointers of one file

  /** The pointers to the MAXFILE data blocks of a file, then the one to its indirect block. */
  ghost function Ptrs(blocks: seq<Bytes>, ip: Inode): (p: seq<nat>)
    ensures |p| == MAXFILE + 1 && forall k :: 0 <= k <= MAXFILE ==> p[k] == Ptr(blocks, ip, k)
  {
    seq(MAXFILE + 1, k requires 0 <= k <= MAXFILE => Ptr(blocks, ip, k))
  }

  ghost predicate Linked(p: seq<nat>) {
    |p| == MAXFILE + 1 && forall k :: NDIRECT <= k < MAXFILE && p[k] != 0 ==> p[MAXFILE] != 0
  }

  lemma PtrsLinked(blocks: seq<Bytes>, ip: Inode)
    requires |ip.addrs| == NDIRECT + 1
    ensures Linked(Ptrs(blocks, ip)) && Ptrs(blocks, ip)[MAXFILE] == ip.addrs[NDIRECT]
  {
  }

  lemma PtrsSize(blocks: seq<Bytes>, ip: Inode, n: nat)
    ensures Ptrs(blocks, ip.(size := n)) == Ptrs(blocks, ip)
  {
  }

  /** File blocks [first, first + n) have a block now. Pointers there were, and those of other file blocks, stay. */
  ghost predicate Filled(p: seq<nat>, p': seq<nat>, first: nat, n: nat) {
    && Linked(p) && Linked(p') && first + n <= MAXFILE
    && (forall k :: first <= k < first + n ==> p'[k] != 0)
    && (forall k :: 0 <= k <= MAXFILE && p[k] != 0 ==> p'[k] == p[k])
    && (forall k :: 0 <= k < MAXFILE && !(first <= k < first + n) ==> p'[k] == p[k])
  }

  /** Some of the file blocks [first, first + n) are in the indirect block. */
  predicate PastDirect(first: nat, n: nat) {
    n > 0 && NDIRECT < first + n
  }

  ghost predicate NoBlock(p: seq<nat>, bn: nat) {
    bn < MAXFILE && bn < |p| && p[bn] == 0
  }

  ghost predicate OthersKeep(blocks: seq<Bytes>, inodes: seq<Inode>, blocks': seq<Bytes>, inodes': seq<Inode>, i: nat) {
    && |inodes'| == |inodes|
    && forall x: nat, k: nat :: x < |inodes| && x != i && k <= MAXFILE ==>
                                  Ptr(blocks', inodes'[x], k) == Ptr(blocks, inodes[x], k)
  }

  lemma KeepTwice(b0: seq<Bytes>, n0: seq<Inode>, b1: seq<Bytes>, n1: seq<Inode>, b2: seq<Bytes>, n2: seq<Inode>,
                  i: nat)
    requires OthersKeep(b0, n0, b1, n1, i) && OthersKeep(b1, n1, b2, n2, i)
    ensures OthersKeep(b0, n0, b2, n2, i)
  {
    forall x: nat, k: nat | x < |n0| && x != i && k <= MAXFILE ensures Ptr(b2, n2[x], k) == Ptr(b0, n0[x], k) {
      assert Ptr(b1, n1[x], k) == Ptr(b0, n0[x], k);
    }
  }

  lemma BmapFilled(sb: Superblock, b0: seq<Bytes>, n0: seq<Inode>, o0: map<nat, Owner>, u1: seq<bool>, b1: seq<Bytes>,
                   n1: seq<Inode>, o1: map<nat, Owner>, i: nat, bn: nat)
    requires Extended(b0, n0, o0, b1, n1, o1, i, bn) && i < |n0| && bn < MAXFILE
    requires forall x: nat :: x < |n0| ==> |n0[x].addrs| == |n1[x].addrs| == NDIRECT + 1 && (x != i ==> n1[x] == n0[x])
    requires n0[i].addrs[NDIRECT] != 0 ==> n1[i].addrs[NDIRECT] == n0[i].addrs[NDIRECT]
    requires Ptr(b0, n0[i], bn) != 0 ==> Ptr(b1, n1[i], bn) == Ptr(b0, n0[i], bn)
    ensures Filled(Ptrs(b0, n0[i]), Ptrs(b1, n1[i]), bn, if Ptr(b1, n1[i], bn) == 0 then 0 else 1)
    ensures OthersKeep(b0, n0, b1, n1, i)
    ensures Ptrs(b0, n0[i])[MAXFILE] == n0[i].addrs[NDIRECT] && Ptrs(b1, n1[i])[MAXFILE] == n1[i].addrs[NDIRECT]
  {
    PtrsLinked(b0, n0[i]);
    PtrsLinked(b1, n1[i]);
    var p, p' := Ptrs(b0, n0[i]), Ptrs(b1, n1[i]);
    forall k: nat | k < MAXFILE && k != bn ensures p'[k] == p[k] {
      assert Ptr(b1, n1[i], k) == Ptr(b0, n0[i], k);
    }
    forall x: nat, k: nat | x < |n0| && x != i && k <= MAXFILE ensures Ptr(b1, n1[x], k) == Ptr(b0, n0[x], k) {
      PtrsLinked(b0, n0[x]);
      PtrsLinked(b1, n1[x]);
      assert k == MAXFILE ==> Ptrs(b1, n1[x])[k] == Ptrs(b0, n0[x])[k];
    }
  }

  // ----- what a write logs

  ghost function DataLogs(p: seq<nat>, first: nat, n: nat): (s: set<nat>) {
    set k | first <= k < first + n && k < |p| :: p[k]
  }

  ghost function BitLogs(sb: Superblock, p: seq<nat>, p': seq<nat>, first: nat, n: nat): (s: set<nat>) {
    set k | first <= k < first + n && k < |p| && k < |p'| && p[k] == 0 :: BBlock(sb, p'[k])
  }

  ghost function EntryLogs(p: seq<nat>, p': seq<nat>, first: nat, n: nat): (s: set<nat>) {
    set k | first <= k < first + n && NDIRECT <= k < |p| && |p'| == MAXFILE + 1 && p[k] == 0 :: p'[MAXFILE]
  }

  /**
   What is logged when a file has got blocks [first, first + n): those blocks, the bitmap blocks of the new ones,
   the indirect block if it has new entries, and if it is itself new, it and its bitmap block.
   */
  ghost function WriteLogs(sb: Superblock, p: seq<nat>, p': seq<nat>, first: nat, n: nat): (s: set<nat>)
    requires |p| == |p'| == MAXFILE + 1
  {
    DataLogs(p', first, n) + BitLogs(sb, p, p', first, n) + EntryLogs(p, p', first, n)
    + Fresh(sb, p[MAXFILE], p'[MAXFILE])
  }

  lemma WriteLogsNone(sb: Superblock, p: seq<nat>, first: nat)
    requires Linked(p) && first <= MAXFILE
    ensures Filled(p, p, first, 0) && WriteLogs(sb, p, p, first, 0) == {}
  {
  }

  /** The logs of one more file block add up. */
  lemma WriteLogsNext(sb: Superblock, p0: seq<nat>, p1: seq<nat>, p2: seq<nat>, first: nat, n: nat, ok: bool)
    requires Filled(p0, p1, first, n) && first + n < MAXFILE && Filled(p1, p2, first + n, if ok then 1 else 0)
    requires ok <==> p2[first + n] != 0
    ensures var n' := if ok then n + 1 else n;
            && Filled(p0, p2, first, n')
            && WriteLogs(sb, p0, p2, first, n') == WriteLogs(sb, p0, p1, first, n)
               + BmapLogs(sb, first + n, p1[MAXFILE], p2[MAXFILE], p1[first + n], p2[first + n])
               + if ok then {p2[first + n]} else {}
  {
    hide BBlock;
    var bn := first + n;
    var n' := if ok then n + 1 else n;
    assert p1[bn] == p0[bn];
    assert forall k :: first <= k < bn ==> p2[k] == p1[k];
    assert DataLogs(p2, first, n) == DataLogs(p1, first, n);
    assert BitLogs(sb, p0, p2, first, n) == BitLogs(sb, p0, p1, first, n);
    assert EntryLogs(p0, p2, first, n) == EntryLogs(p0, p1, first, n);
    var F, F' := Fresh(sb, p0[MAXFILE], p1[MAXFILE]), Fresh(sb, p1[MAXFILE], p2[MAXFILE]);
    assert Fresh(sb, p0[MAXFILE], p2[MAXFILE]) == F + F';
    var D, B, E := DataLogs(p1, first, n), BitLogs(sb, p0, p1, first, n), EntryLogs(p0, p1, first, n);
    if ok {
      var b := if p0[bn] == 0 then {BBlock(sb, p2[bn])} else {};
      var e := if p0[bn] == 0 && bn >= NDIRECT then {p2[MAXFILE]} else {};
      assert DataLogs(p2, first, n + 1) == D + {p2[bn]};
      assert BitLogs(sb, p0, p2, first, n + 1) == B + b;
      assert EntryLogs(p0, p2, first, n + 1) == E + e;
      assert Fresh(sb, p1[bn], p2[bn]) + {p2[bn]} == b + {p2[bn]};
      Regroup(D, B, E, F, F', p2[bn], b, e, Fresh(sb, p1[bn], p2[bn]));
    }
  }

  lemma Regroup(D: set<nat>, B: set<nat>, E: set<nat>, F: set<nat>, F': set<nat>, a: nat, b: set<nat>, e: set<nat>,
                A: set<nat>)
    requires A + {a} == b + {a}
    ensures D + {a} + (B + b) + (E + e) + (F + F') == D + B + E + F + (F' + A + e) + {a}
  {
    forall x ensures x in A || x == a <==> x in b || x == a { assert x in A + {a} <==> x in b + {a}; }
  }

  // ----- file contents

  /** Byte k of a file is v. */
  ghost predicate Holds(blocks: seq<Bytes>, ip: Inode, k: nat, v: nat) {
    var a := Ptr(blocks, ip, k / BSIZE);
    k / BSIZE < MAXFILE && 0 < a < |blocks| && |blocks[a]| == BSIZE && blocks[a][k % BSIZE] == v
  }

  ghost predicate HoldsAll(blocks: seq<Bytes>, ip: Inode, bytes: Bytes) {
    forall k: nat :: k < |bytes| ==> Holds(blocks, ip, k, bytes[k])
  }

  /** The file has exactly the given bytes, all of them in allocated blocks. */
  ghost predicate IsContent(blocks: seq<Bytes>, ip: Inode, bytes: Bytes) {
    |bytes| == ip.size && HoldsAll(blocks, ip, bytes)
  }

  ghost predicate Contains(blocks: seq<Bytes>, inodes: seq<Inode>, contents: seq<Bytes>) {
    |contents| == |inodes| && forall i :: 0 <= i < |inodes| ==> IsContent(blocks, inodes[i], contents[i])
  }

  /** `bytes` with `s` written at `off`, longer if need be. */
  function Patched(bytes: Bytes, off: nat, s: Bytes): (r: Bytes)
    requires off <= |bytes|
    ensures |r| == if off + |s| > |bytes| then off + |s| else |bytes|
    ensures forall k :: 0 <= k < |r| ==> r[k] == if off <= k < off + |s| then s[k - off] else bytes[k]
  {
    bytes[..off] + s + if off + |s| < |bytes| then bytes[off + |s|..] else []
  }

  /** The bytes of a file in [off, off + n), cut at its end. */
  function Requested(bytes: Bytes, off: nat, n: nat): (r: Bytes) {
    if off > |bytes| || off + n >= UINT then []
    else if off + n > |bytes| then bytes[off..]
    else bytes[off..off + n]
  }

  function Splice(blk: Bytes, o: nat, s: Bytes): (r: Bytes)
    requires o + |s| <= |blk|
    ensures |r| == |blk|
    ensures forall k :: 0 <= k < |r| ==> r[k] == if o <= k < o + |s| then s[k - o] else blk[k]
  {
    blk[..o] + s + blk[o + |s|..]
  }

  /** A bmap leaves the bytes of every file alone. */
  lemma BmapHolds(sb: Superblock, used: seq<bool>, blocks: seq<Bytes>, inodes: seq<Inode>, owner: map<nat, Owner>,
                  blocks': seq<Bytes>, inodes': seq<Inode>, owner': map<nat, Owner>, i: nat, bn: nat, x: nat,
                  bytes: Bytes)
    requires Owned(sb, used, blocks, inodes, owner) && Extended(blocks, inodes, owner, blocks', inodes', owner', i, bn)
    requires i < |inodes| && x < |inodes| && Ptr(blocks, inodes[i], bn) == 0
    requires HoldsAll(blocks, inodes[x], bytes)
    ensures HoldsAll(blocks', inodes'[x], bytes)
  {
    forall k: nat | k < |bytes| ensures Holds(blocks', inodes'[x], k, bytes[k]) {
      assert Holds(blocks, inodes[x], k, bytes[k]);
      assert PtrOk(blocks, inodes, owner, x, k / BSIZE);
    }
  }

  /** Writing into data block (i, bn) changes no pointer. */
  lemma SpliceOwned(sb: Superblock, used: seq<bool>, blocks: seq<Bytes>, inodes: seq<Inode>, owner: map<nat, Owner>,
                    i: nat, bn: nat, blk: Bytes)
    requires Owned(sb, used, blocks, inodes, owner) && i < |inodes| && bn < MAXFILE && |blk| == BSIZE
    requires Ptr(blocks, inodes[i], bn) != 0
    ensures var a := Ptr(blocks, inodes[i], bn);
            && a < |blocks| && a in owner && owner[a] == Owner(i, bn)
            && Owned(sb, used, blocks[a := blk], inodes, owner)
            && forall x: nat, y: nat :: x < |inodes| && y <= MAXFILE ==>
                 Ptr(blocks[a := blk], inodes[x], y) == Ptr(blocks, inodes[x], y)
  {
    var a := Ptr(blocks, inodes[i], bn);
    assert PtrOk(blocks, inodes, owner, i, bn);
    assert OwnOk(sb, used, blocks, inodes, owner, a);
    var blocks' := blocks[a := blk];
    forall x: nat, y: nat | x < |inodes| && y <= MAXFILE
      ensures Ptr(blocks', inodes[x], y) == Ptr(blocks, inodes[x], y)
    {
      NotIndirect(sb, used, blocks, inodes, owner, x, a);
    }
    forall x: nat, y: nat | x < |inodes| && y <= MAXFILE ensures PtrOk(blocks', inodes, owner, x, y) {
      assert PtrOk(blocks, inodes, owner, x, y);
    }
    forall b | b in owner ensures OwnOk(sb, used, blocks', inodes, owner, b) {
      assert OwnOk(sb, used, blocks, inodes, owner, b);
    }
  }

  /** Writing a chunk into one block of a file patches its bytes there. */
  lemma SpliceHolds(sb: Superblock, used: seq<bool>, blocks: seq<Bytes>, inodes: seq<Inode>, owner: map<nat, Owner>,
                    i: nat, off: nat, chunk: Bytes, bytes: Bytes)
    requires Owned(sb, used, blocks, inodes, owner) && i < |inodes| && off / BSIZE < MAXFILE
    requires off % BSIZE + |chunk| <= BSIZE && off <= |bytes| && Ptr(blocks, inodes[i], off / BSIZE) != 0
    requires HoldsAll(blocks, inodes[i], bytes)
    ensures var a := Ptr(blocks, inodes[i], off / BSIZE);
            && a < |blocks| && |blocks[a]| == BSIZE
            && HoldsAll(blocks[a := Splice(blocks[a], off % BSIZE, chunk)], inodes[i], Patched(bytes, off, chunk))
  {
    var bn := off / BSIZE;
    var a := Ptr(blocks, inodes[i], bn);
    SpliceOwned(sb, used, blocks, inodes, owner, i, bn, ZeroBlock());
    var blk := Splice(blocks[a], off % BSIZE, chunk);
    SpliceOwned(sb, used, blocks, inodes, owner, i, bn, blk);
    var now := Patched(bytes, off, chunk);
    forall k: nat | k < |now| ensures Holds(blocks[a := blk], inodes[i], k, now[k]) {
      if k < |bytes| { assert Holds(blocks, inodes[i], k, bytes[k]); }
      Position(off, |chunk|, k);
      assert PtrOk(blocks, inodes, owner, i, k / BSIZE);
    }
  }

  lemma Position(off: nat, m: nat, k: nat)
    requires off % BSIZE + m <= BSIZE
    ensures off <= k < off + m ==> k / BSIZE == off / BSIZE && k % BSIZE - off % BSIZE == k - off
    ensures k / BSIZE == off / BSIZE && off % BSIZE <= k % BSIZE < off % BSIZE + m ==> off <= k < off + m
  {
  }

  /** Other files do not notice. */
  lemma SpliceOthers(sb: Superblock, used: seq<bool>, blocks: seq<Bytes>, inodes: seq<Inode>, owner: map<nat, Owner>,
                     i: nat, bn: nat, blk: Bytes, x: nat, bytes: Bytes)
    requires Owned(sb, used, blocks, inodes, owner) && i < |inodes| && bn < MAXFILE && |blk| == BSIZE
    requires Ptr(blocks, inodes[i], bn) != 0 && x < |inodes| && x != i
    requires HoldsAll(blocks, inodes[x], bytes)
    ensures Ptr(blocks, inodes[i], bn) < |blocks|
    ensures HoldsAll(blocks[Ptr(blocks, inodes[i], bn) := blk], inodes[x], bytes)
  {
    SpliceOwned(sb, used, blocks, inodes, owner, i, bn, blk);
    var blocks' := blocks[Ptr(blocks, inodes[i], bn) := blk];
    forall k: nat | k < |bytes| ensures Holds(blocks', inodes[x], k, bytes[k]) {
      assert Holds(blocks, inodes[x], k, bytes[k]);
      assert PtrOk(blocks, inodes, owner, x, k / BSIZE) && PtrOk(blocks, inodes, owner, i, bn);
    }
  }

  class FileSystem {
    const sb: Superblock
    var used: seq<bool>
    var blocks: seq<Bytes>
    var inodes: seq<Inode>
    ghost var owner: map<nat, Owner>
    ghost var contents: seq<Bytes>   // the bytes of every file
    ghost var logged: set<nat>       // blocks passed to log_write in the current transaction
    ghost var ended: seq<set<nat>>   // what each transaction of filewrite has logged

    ghost predicate Valid()
      reads this
    {
      Sized(sb, used, blocks, inodes) && Owned(sb, used, blocks, inodes, owner)
    }

    ghost predicate Files()
      reads this
    {
      Contains(blocks, inodes, contents)
    }

    /** A well-formed image. */
    constructor (sb: Superblock, used: seq<bool>, blocks: seq<Bytes>, inodes: seq<Inode>,
                 ghost owner: map<nat, Owner>, ghost contents: seq<Bytes>)
      requires Owned(sb, used, blocks, inodes, owner) && Contains(blocks, inodes, contents)
      ensures Valid() && this.sb == sb && this.used == used && this.blocks == blocks && this.inodes == inodes
      ensures this.owner == owner && logged == {} && ended == [] && this.contents == contents && Files()
    {
      this.sb, this.used, this.blocks, this.inodes := sb, used, blocks, inodes;
      this.owner, this.contents, this.logged, this.ended := owner, contents, {}, [];
    }

    /** balloc: the first free block, zeroed, or 0 exactly when the disk is full. */
    method Balloc() returns (b: nat)
      requires Sized(sb, used, blocks, inodes) && used[0]
      modifies this`used, this`blocks, this`logged
      ensures b == 0 <==> forall a :: 0 <= a < sb.size ==> old(used)[a]
      ensures b == 0 ==> used == old(used) && blocks == old(blocks) && logged == old(logged)
      ensures b != 0 ==> && b < sb.size && !old(used)[b] && (forall a :: 0 <= a < b ==> old(used)[a])
                         && used == old(used)[b := true] && blocks == old(blocks)[b := ZeroBlock()]
                         && logged == old(logged) + {BBlock(sb, b), b}
    {
      var base := 0;
      while base < sb.size
        invariant base % BPB == 0
        invariant unchanged(this`used) && unchanged(this`blocks) && unchanged(this`logged)
        invariant forall a :: 0 <= a < base && a < sb.size ==> used[a]
      {
        var bi := 0;
        while bi < BPB && base + bi < sb.size
          invariant 0 <= bi <= BPB
          invariant unchanged(this`used) && unchanged(this`blocks) && unchanged(this`logged)
          invariant forall a :: 0 <= a < base + bi && a < sb.size ==> used[a]
        {
          if !used[base + bi] {
            used := used[base + bi := true];
            logged := logged + {BBlock(sb, base)};
            blocks := blocks[base + bi := ZeroBlock()];
            logged := logged + {base + bi};
            assert BBlock(sb, base) == BBlock(sb, base + bi);
            return base + bi;
          }
          bi := bi + 1;
        }
        base := base + BPB;
      }
      b := 0;
    }

    /** bfree; !ok is the panic on a block that is free already. */
    method Bfree(b: nat) returns (ok: bool)
      requires b < |used|
      modifies this`used, this`logged
      ensures ok <==> old(used)[b]
      ensures !ok ==> used == old(used) && logged == old(logged)
      ensures ok ==> used == old(used)[b := false] && logged == old(logged) + {BBlock(sb, b)}
    {
      if !used[b] { return false; }
      used := used[b := false];
      logged := logged + {BBlock(sb, b)};
      ok := true;
    }

    /** balloc for entry k of the inode itself: a direct block, or the indirect block for k == NDIRECT. */
    method AllocInode(i: nat, k: nat, ghost bn: nat) returns (a: nat)
      requires Valid() && i < |inodes| && k <= NDIRECT && inodes[i].addrs[k] == 0
      requires (k == bn && k < NDIRECT) || (k == NDIRECT && NDIRECT <= bn < MAXFILE)
      modifies this`used, this`blocks, this`inodes, this`owner, this`logged
      ensures Logs(sb, old(used), old(blocks), old(inodes), used, blocks, inodes, i, logged)
      ensures Valid() && Extended(old(blocks), old(inodes), old(owner), blocks, inodes, owner, i, bn)
      ensures a == 0 ==> unchanged(this) && forall b :: 0 <= b < sb.size ==> used[b]
      ensures a != 0 ==> && a < |old(used)| == |old(blocks)| && !old(used)[a] && a !in old(owner)
                         && blocks == old(blocks)[a := ZeroBlock()]
                         && inodes == old(inodes)[i := old(inodes)[i].(addrs := old(inodes)[i].addrs[k := a])]
                         && logged == old(logged) + {BBlock(sb, a), a}
                         && Ptr(blocks, inodes[i], if k == NDIRECT then MAXFILE else k) == a
                         && (k == NDIRECT ==> Ptr(blocks, inodes[i], bn) == Ptr(old(blocks), old(inodes)[i], bn))
    {
      hide Ptr;
      a := Balloc();
      if a != 0 {
        ghost var p := if k == NDIRECT then MAXFILE else k;
        GainsInode(sb, old(used), old(blocks), inodes, owner, i, k, a);
        inodes := inodes[i := inodes[i].(addrs := inodes[i].addrs[k := a])];
        GainsOwned(sb, old(used), old(blocks), old(inodes), owner, blocks, inodes, i, p, a);
        OwnedUsed(sb, old(used), old(blocks), old(inodes), owner);
        owner := owner[a := Owner(i, p)];
      }
    }

    /** balloc for an entry of the indirect block. */
    method AllocEntry(i: nat, bn: nat) returns (a: nat)
      requires Valid() && i < |inodes| && NDIRECT <= bn < MAXFILE
      requires inodes[i].addrs[NDIRECT] != 0 && Ptr(blocks, inodes[i], bn) == 0
      modifies this`used, this`blocks, this`inodes, this`owner, this`logged
      ensures Logs(sb, old(used), old(blocks), old(inodes), used, blocks, inodes, i, logged)
      ensures Valid() && Extended(old(blocks), old(inodes), old(owner), blocks, inodes, owner, i, bn)
      ensures inodes == old(inodes)
      ensures a == 0 ==> unchanged(this) && forall b :: 0 <= b < sb.size ==> used[b]
      ensures a != 0 ==> && a < |blocks| && a < |old(used)| && !old(used)[a] && a !in old(owner)
                         && blocks[a] == ZeroBlock()
                         && logged == old(logged) + {BBlock(sb, a), a, inodes[i].addrs[NDIRECT]}
                         && Ptr(blocks, inodes[i], bn) == a
    {
      hide Ptr;
      a := Balloc();
      if a != 0 {
        var ind := inodes[i].addrs[NDIRECT];
        GainsEntry(sb, old(used), old(blocks), inodes, owner, i, bn, a);
        blocks := blocks[ind := SetWord(blocks[ind], bn - NDIRECT, a)];
        logged := logged + {ind};
        GainsOwned(sb, old(used), old(blocks), inodes, owner, blocks, inodes, i, bn, a);
        IndirectIs(sb, old(used), old(blocks), inodes, owner, i);
        OwnedUsed(sb, old(used), old(blocks), inodes, owner);
        owner := owner[a := Owner(i, bn)];
      }
    }

    /** bmap: the block of file block bn, allocated if there is none; 0 when the disk is full. */
    method Bmap(i: nat, bn: nat) returns (a: nat)
      requires Valid() && i < |inodes| && bn < MAXFILE
      modifies this`used, this`blocks, this`inodes, this`owner, this`logged
      ensures Logs(sb, old(used), old(blocks), old(inodes), used, blocks, inodes, i, logged)
      ensures Valid() && Extended(old(blocks), old(inodes), old(owner), blocks, inodes, owner, i, bn)
      ensures a == Ptr(blocks, inodes[i], bn)
      ensures Ptr(old(blocks), old(inodes)[i], bn) != 0 ==> unchanged(this)
      ensures Ptr(old(blocks), old(inodes)[i], bn) == 0 && a != 0 ==>
                a < |blocks| && blocks[a] == ZeroBlock() && a !in old(owner)
      ensures a == 0 ==> forall b :: 0 <= b < sb.size ==> used[b]
      ensures old(inodes)[i].addrs[NDIRECT] != 0 ==> inodes[i].addrs[NDIRECT] == old(inodes)[i].addrs[NDIRECT]
      ensures a != 0 && bn >= NDIRECT ==> inodes[i].addrs[NDIRECT] != 0
      ensures bn < NDIRECT ==> inodes[i].addrs[NDIRECT] == old(inodes)[i].addrs[NDIRECT]
      ensures logged == old(logged) + BmapLogs(sb, bn, old(inodes)[i].addrs[NDIRECT], inodes[i].addrs[NDIRECT],
                                               Ptr(old(blocks), old(inodes)[i], bn), a)
    {
      hide Logs;
      LogsNone(sb, used, blocks, inodes, i, logged);
      ghost var u0, b0, n0, o0 := used, blocks, inodes, owner;
      if bn < NDIRECT {
        a := inodes[i].addrs[bn];
        if a == 0 { a := AllocInode(i, bn, bn); }
        return;
      }
      a := inodes[i].addrs[NDIRECT];
      if a == 0 {
        a := AllocInode(i, NDIRECT, bn);
        if a == 0 { return; }
      }
      hide Owned;
      ghost var u1, b1, n1, o1, l1 := used, blocks, inodes, owner, logged;
      a := IndirectEntry(i, bn);
      LogsTwice(sb, u0, b0, n0, u1, b1, n1, used, blocks, inodes, i, l1, logged);
      ExtendedTwice(b0, n0, o0, b1, n1, o1, blocks, inodes, owner, i, bn);
    }

    /** bmap once there is an indirect block. */
    method IndirectEntry(i: nat, bn: nat) returns (a: nat)
      requires Valid() && i < |inodes| && NDIRECT <= bn < MAXFILE && inodes[i].addrs[NDIRECT] != 0
      modifies this`used, this`blocks, this`inodes, this`owner, this`logged
      ensures Logs(sb, old(used), old(blocks), old(inodes), used, blocks, inodes, i, logged)
      ensures Valid() && Extended(old(blocks), old(inodes), old(owner), blocks, inodes, owner, i, bn)
      ensures a == Ptr(blocks, inodes[i], bn) && inodes == old(inodes)
      ensures Ptr(old(blocks), old(inodes)[i], bn) != 0 ==> unchanged(this)
      ensures Ptr(old(blocks), old(inodes)[i], bn) == 0 && a != 0 ==>
                a < |blocks| && blocks[a] == ZeroBlock() && a !in old(owner)
      ensures a == 0 ==> forall b :: 0 <= b < sb.size ==> used[b]
      ensures logged == old(logged) + BmapLogs(sb, bn, inodes[i].addrs[NDIRECT], inodes[i].addrs[NDIRECT],
                                               Ptr(old(blocks), old(inodes)[i], bn), a)
    {
      hide Logs, Owned;
      LogsNone(sb, used, blocks, inodes, i, logged);
      IndirectIs(sb, used, blocks, inodes, owner, i);
      a := Word(blocks[inodes[i].addrs[NDIRECT]], bn - NDIRECT);
      if a == 0 {
        hide Ptr;
        a := AllocEntry(i, bn);
      }
    }

    /** One iteration of writei: the chunk goes into its block, allocated if need be. */
    method WriteChunk(i: nat, off: nat, chunk: Bytes, ghost bytes: Bytes) returns (ok: bool)
      requires Valid() && i < |inodes| && InFlight(blocks, inodes, contents, i, bytes)
      requires off / BSIZE < MAXFILE && off % BSIZE + |chunk| <= BSIZE && off <= |bytes|
      modifies this`used, this`blocks, this`inodes, this`owner, this`logged
      ensures Logs(sb, old(used), old(blocks), old(inodes), used, blocks, inodes, i, logged)
      ensures Valid() && |inodes| == |old(inodes)| && inodes[i].size == old(inodes)[i].size
      ensures InFlight(blocks, inodes, contents, i, if ok then Patched(bytes, off, chunk) else bytes)
      ensures !ok ==> forall b :: 0 <= b < sb.size ==> used[b]
      ensures OthersKeep(old(blocks), old(inodes), blocks, inodes, i)
      ensures var p, p', bn := Ptrs(old(blocks), old(inodes)[i]), Ptrs(blocks, inodes[i]), off / BSIZE;
              && Filled(p, p', bn, if ok then 1 else 0) && (ok <==> p'[bn] != 0)
              && (bn < NDIRECT ==> p'[MAXFILE] == p[MAXFILE])
              && logged == old(logged) + BmapLogs(sb, bn, p[MAXFILE], p'[MAXFILE], p[bn], p'[bn])
                           + if ok then {p'[bn]} else {}
    {
      hide Ptr, Owned, Holds, Extended, Filled, OthersKeep;
      ghost var bn, b0, n0 := off / BSIZE, blocks, inodes;
      var a := Bmap(i, off / BSIZE);
      BmapFilled(sb, b0, n0, old(owner), used, blocks, inodes, owner, i, bn);
      if Ptr(old(blocks), old(inodes)[i], bn) == 0 {
        BmapFlight(sb, old(used), old(blocks), old(inodes), old(owner), blocks, inodes, owner, i, bn, contents, bytes);
      }
      if a == 0 { return false; }
      SpliceFlight(sb, used, blocks, inodes, owner, i, off, chunk, contents, bytes);
      ghost var b1 := blocks;
      blocks := blocks[a := Splice(blocks[a], off % BSIZE, chunk)];
      KeepTwice(b0, n0, b1, inodes, blocks, inodes, i);
      logged := logged + {a};
      ok := true;
    }

    /**
     writei with copies that succeed: `r` bytes of `src` replace or extend the file from `off`; -1 leaves
     it alone. Fewer than all only when the disk is full. Logs at most WriteCost blocks.
     */
    method Writei(i: nat, off: nat, src: Bytes) returns (r: int)
      requires Valid() && Files() && i < |inodes| && off < UINT && |src| < UINT
      modifies this`used, this`blocks, this`inodes, this`owner, this`logged, this`contents
      ensures Valid() && Files()
      ensures r == -1 <==> off > |old(contents)[i]| || off + |src| >= UINT || off + |src| > MAXFILE * BSIZE
      ensures r == -1 ==> unchanged(this)
      ensures r != -1 ==> && 0 <= r <= |src| && off <= |old(contents)[i]|
                          && contents == old(contents)[i := Patched(old(contents)[i], off, src[..r])]
                          && (r < |src| ==> forall b :: 0 <= b < sb.size ==> used[b])
                          && |logged - old(logged)| <= WriteCost(off, |src|)
                          && Logs(sb, old(used), old(blocks), old(inodes), used, blocks, inodes, i, logged)
      ensures r != -1 ==> WroteBlocks(sb, old(blocks), old(inodes), blocks, inodes, i, off, |src|, r,
                                      old(logged), sb.inodestart + i / IPB, logged)
    {
      hide Ptr, Owned, Contains, WriteCost, Filled, OthersKeep, WriteLogs, Blocks, NoBlock, InFlight, Logs, Patched;
      FileSize(blocks, inodes, contents, i);
      if off > inodes[i].size || off + |src| >= UINT { return -1; }
      if off + |src| > MAXFILE * BSIZE { return -1; }
      var tot := WriteLoop(i, off, src);
      OneMore(old(logged), logged, sb.inodestart + i / IPB);
      EndWrite(i, off, src, tot, old(used), old(blocks), old(inodes), old(logged));
      r := tot;
    }

    /** The end of writei: the size if the file has grown, and iupdate. */
    method EndWrite(i: nat, off: nat, src: Bytes, tot: nat, ghost u0: seq<bool>, ghost b0: seq<Bytes>,
                    ghost n0: seq<Inode>, ghost l0: set<nat>)
      requires Writing(u0, b0, n0, l0, i, off, src, tot)
      modifies this`inodes, this`logged, this`contents
      ensures Valid() && Files() && |inodes| == |n0| == |contents|
      ensures contents == old(contents)[i := Patched(old(contents)[i], off, src[..tot])]
      ensures logged == old(logged) + {sb.inodestart + i / IPB}
      ensures Logs(sb, u0, b0, n0, used, blocks, inodes, i, logged) && OthersKeep(b0, n0, blocks, inodes, i)
      ensures Ptrs(blocks, inodes[i]) == old(Ptrs(blocks, inodes[i]))
    {
      hide Ptr, Owned, HoldsAll, Filled, OthersKeep, WriteLogs, Blocks, Logs;
      ghost var bytes := Patched(contents[i], off, src[..tot]);
      PtrsSize(blocks, inodes[i], |bytes|);
      KeepSize(b0, n0, blocks, inodes, i, |bytes|);
      LogsInode(sb, u0, b0, n0, used, blocks, inodes, i, logged, inodes[i].(size := |bytes|), sb.inodestart + i / IPB);
      Finish(sb, used, blocks, inodes, owner, contents, i, bytes);
      if off + tot > inodes[i].size {
        inodes := inodes[i := inodes[i].(size := off + tot)];
      } else {
        assert inodes == inodes[i := inodes[i].(size := |bytes|)];
      }
      logged := logged + {sb.inodestart + i / IPB};   // iupdate
      contents := contents[i := bytes];
    }

    /** writei has copied `tot` bytes, from a state with `u0`, `b0`, `n0` and the log set `l0`. */
    ghost predicate Writing(u0: seq<bool>, b0: seq<Bytes>, n0: seq<Inode>, l0: set<nat>, i: nat, off: nat, src: Bytes,
                            tot: nat)
      reads this
    {
      && Valid() && i < |inodes| == |contents| == |n0| && inodes[i].size == |contents[i]| && off <= |contents[i]|
      && tot <= |src| && InFlight(blocks, inodes, contents, i, Patched(contents[i], off, src[..tot]))
      && (0 < tot < |src| ==> (off + tot) % BSIZE == 0)
      && Logs(sb, u0, b0, n0, used, blocks, inodes, i, logged) && OthersKeep(b0, n0, blocks, inodes, i)
      && var p, p', first, k := Ptrs(b0, n0[i]), Ptrs(blocks, inodes[i]), off / BSIZE, Blocks(off, tot);
      && Filled(p, p', first, k) && logged == l0 + WriteLogs(sb, p, p', first, k)
      && (p'[MAXFILE] != p[MAXFILE] ==> PastDirect(first, Blocks(off, |src|)))
    }

    lemma StartWriting(i: nat, off: nat, src: Bytes)
      requires Valid() && Files() && i < |inodes| && off <= |contents[i]| && off + |src| <= MAXFILE * BSIZE
      ensures Writing(used, blocks, inodes, logged, i, off, src, 0)
      ensures off / BSIZE <= MAXFILE && (off % BSIZE != 0 ==> Ptrs(blocks, inodes[i])[off / BSIZE] != 0)
    {
      hide Ptr, Owned, HoldsAll, Patched, WriteLogs, Filled;
      WroteNone(blocks, inodes, contents, i, off, src);
      LogsNone(sb, used, blocks, inodes, i, logged);
      StartsAllocated(blocks, inodes, contents, i, off, contents[i]);
      PtrsLinked(blocks, inodes[i]);
      WriteLogsNone(sb, Ptrs(blocks, inodes[i]), off / BSIZE);
    }

    /** One iteration of the loop of writei; !ok when there is no block for it. */
    method WriteStep(i: nat, off: nat, src: Bytes, tot: nat, ghost u0: seq<bool>, ghost b0: seq<Bytes>,
                     ghost n0: seq<Inode>, ghost l0: set<nat>) returns (ok: bool, next: nat)
      requires Writing(u0, b0, n0, l0, i, off, src, tot) && tot < |src| && off + |src| <= MAXFILE * BSIZE
      modifies this`used, this`blocks, this`inodes, this`owner, this`logged
      ensures tot <= next <= |src| && Writing(u0, b0, n0, l0, i, off, src, next)
      ensures if ok then tot < next else next == tot && NoBlock(Ptrs(blocks, inodes[i]), off / BSIZE + Blocks(off, tot))
      ensures !ok ==> Blocks(off, tot) < Blocks(off, |src|) && forall b :: 0 <= b < sb.size ==> used[b]
    {
      hide Ptr, Owned, HoldsAll, Logs, BBlock, BmapLogs, Filled, WriteLogs, OthersKeep, Blocks, Patched, Sized;
      var at := off + tot;
      next := tot + if |src| - tot < BSIZE - at % BSIZE then |src| - tot else BSIZE - at % BSIZE;
      BlocksNext(off, tot, at, next, |src|);
      BlockOf(off, tot, |src|);
      WroteMore(contents[i], off, src, tot, next);
      ghost var bytes := Patched(contents[i], off, src[..tot]);
      ghost var u1, b1, n1, l1 := used, blocks, inodes, logged;
      ok := WriteChunk(i, at, src[tot..next], bytes);
      LogsTwice(sb, u0, b0, n0, u1, b1, n1, used, blocks, inodes, i, l1, logged);
      KeepTwice(b0, n0, b1, n1, blocks, inodes, i);
      WriteLogsNext(sb, Ptrs(b0, n0[i]), Ptrs(b1, n1[i]), Ptrs(blocks, inodes[i]), off / BSIZE, Blocks(off, tot), ok);
      if !ok { next := tot; }
    }

    /** The loop of writei: the number of bytes copied before the disk filled up, if it did. */
    method WriteLoop(i: nat, off: nat, src: Bytes) returns (tot: nat)
      requires Valid() && Files() && i < |inodes| && off <= |contents[i]| && off + |src| <= MAXFILE * BSIZE
      modifies this`used, this`blocks, this`inodes, this`owner, this`logged
      ensures Writing(old(used), old(blocks), old(inodes), old(logged), i, off, src, tot)
      ensures tot < |src| ==> forall b :: 0 <= b < sb.size ==> used[b]
      ensures tot < |src| ==> && Blocks(off, tot) < Blocks(off, |src|)
                              && NoBlock(Ptrs(blocks, inodes[i]), off / BSIZE + Blocks(off, tot))
      ensures |logged - old(logged)| + 1 <= WriteCost(off, |src|)
    {
      hide Ptr, Owned, HoldsAll, InFlight, Logs, Filled, WriteLogs, OthersKeep, Blocks, NoBlock, Patched;
      StartWriting(i, off, src);
      var ok := true;
      tot := 0;
      while ok && tot < |src|
        invariant Writing(old(used), old(blocks), old(inodes), old(logged), i, off, src, tot)
        invariant !ok ==> && Blocks(off, tot) < Blocks(off, |src|)
                          && NoBlock(Ptrs(blocks, inodes[i]), off / BSIZE + Blocks(off, tot))
        invariant !ok ==> forall b :: 0 <= b < sb.size ==> used[b]
        decreases |src| - tot, ok
      {
        ok, tot := WriteStep(i, off, src, tot, old(used), old(blocks), old(inodes), old(logged));
      }
      WriteLogsSize(sb, Ptrs(old(blocks), old(inodes)[i]), Ptrs(blocks, inodes[i]), off, tot, |src|, old(logged),
                    logged);
    }

    /** bmap and bread of one iteration of readi: the bytes it copies out. */
    method ReadChunk(i: nat, at: nat, m: nat) returns (chunk: Bytes)
      requires Valid() && Files() && i < |inodes| && 0 < m && at % BSIZE + m <= BSIZE && at + m <= |contents[i]|
      modifies this`used, this`blocks, this`inodes, this`owner, this`logged
      ensures unchanged(this) && chunk == contents[i][at..at + m]
    {
      hide Ptr, Owned, Holds, HoldsAll, Sized;
      ReadMore(sb, blocks, inodes, contents, i, at, m);
      var a := Bmap(i, at / BSIZE);
      chunk := blocks[a][at % BSIZE..at % BSIZE + m];
    }

    /**
     readi: exactly the bytes of the file in the requested range, and nothing changes. Only `room` bytes can be
     copied out; if that is too few the result is -1, with the blocks before the failing one copied.
     */
    method Readi(i: nat, off: nat, n: nat, room: nat) returns (r: int, dst: Bytes)
      requires Valid() && Files() && i < |inodes| && off < UINT && n < UINT
      modifies this`used, this`blocks, this`inodes, this`owner, this`logged
      ensures unchanged(this)
      ensures var want := Requested(contents[i], off, n);
              if |want| <= room then r == |want| && dst == want else r == -1 && dst <= want && |dst| <= room
    {
      hide FileSystem.Valid, Contains, Requested;
      FileSize(blocks, inodes, contents, i);
      ghost var c := contents[i];
      RequestedIs(c, off, n);
      r, dst := 0, [];
      if off > inodes[i].size || off + n >= UINT { return; }
      var want := if off + n > inodes[i].size then inodes[i].size - off else n;
      while r < want
        invariant 0 <= r == |dst| <= want && r <= room && unchanged(this) && dst == c[off..off + r]
      {
        var at := off + r;
        var m := if want - r < BSIZE - at % BSIZE then want - r else BSIZE - at % BSIZE;
        var chunk := ReadChunk(i, at, m);
        SliceJoin(c, off, at, off + want);
        if r + m > room { return -1, dst; }
        SliceJoin(c, off, at, at + m);
        r, dst := r + m, dst + chunk;
      }
    }

    /** itrunc: gives back exactly the blocks of the file; no bfree panics. */
    method Itrunc(i: nat) returns (ok: bool)
      requires Valid() && Files() && i < |inodes|
      modifies this
      ensures ok && Valid() && Files() && contents == old(contents)[i := []]
      ensures blocks == old(blocks) && inodes == old(inodes)[i := Inode(Zeros(NDIRECT + 1), 0)]
      ensures owner == OthersOf(old(owner), i) && FreedUpTo(old(used), old(owner), i, MAXFILE + 1, used)
      ensures Logs(sb, old(used), old(blocks), old(inodes), used, blocks, inodes, i, logged)
      ensures logged == old(logged) + BitsChanged(sb, old(used), used) + {sb.inodestart + i / IPB}
    {
      hide Ptr, Owned, Holds, HoldsAll, FreedUpTo, BitsLogged, BitsChanged;
      ghost var ip := inodes[i];
      FreeDirect(i);
      var ind := inodes[i].addrs[NDIRECT];
      if ind != 0 {
        FreeIndirect(i, ind, old(used), old(inodes), old(logged));
        inodes := inodes[i := inodes[i].(addrs := inodes[i].addrs[NDIRECT := 0])];
      } else {
        FreeRest(sb, old(used), blocks, old(inodes), owner, i, used);
      }
      assert inodes[i].addrs == Zeros(NDIRECT + 1);
      inodes := inodes[i := inodes[i].(size := 0)];
      ChangedLogged(sb, old(used), used, logged + {sb.inodestart + i / IPB});
      logged := logged + {sb.inodestart + i / IPB};   // iupdate
      assert inodes == old(inodes)[i := Inode(Zeros(NDIRECT + 1), 0)];
      TruncOwned(sb, old(used), blocks, old(inodes), owner, i, used, contents);
      owner := OthersOf(owner, i);
      contents := contents[i := []];
      ok := true;
    }

    /** The first half of itrunc: the direct blocks. */
    method FreeDirect(i: nat)
      requires Valid() && i < |inodes|
      modifies this`used, this`inodes, this`logged
      ensures FreedUpTo(old(used), owner, i, NDIRECT, used) && |used| == sb.size
      ensures logged == old(logged) + BitsChanged(sb, old(used), used)
      ensures inodes == old(inodes)[i := old(inodes)[i].(addrs := Zeros(NDIRECT) + old(inodes)[i].addrs[NDIRECT..])]
    {
      hide Ptr, Owned, FreedUpTo, BitsChanged;
      ghost var ip := inodes[i];
      BitsSame(sb, used);
      FreedNone(sb, used, blocks, inodes, owner, i);
      for k := 0 to NDIRECT
        invariant FreedUpTo(old(used), owner, i, k, used) && |used| == sb.size
        invariant logged == old(logged) + BitsChanged(sb, old(used), used)
        invariant inodes == old(inodes)[i := ip.(addrs := Zeros(k) + ip.addrs[k..])]
      {
        FreeNext(sb, old(used), blocks, old(inodes), owner, i, k, used);
        ZeroedNext(ip.addrs, k);
        var a := inodes[i].addrs[k];
        if a != 0 {
          BitsNext(sb, old(used), used, a);
          var ok := Bfree(a);
          inodes := inodes[i := inodes[i].(addrs := inodes[i].addrs[k := 0])];
        }
      }
    }

    /** The second half of itrunc: the blocks listed in the indirect block, then that block. */
    method FreeIndirect(i: nat, ind: nat, ghost used0: seq<bool>, ghost inodes0: seq<Inode>, ghost logged0: set<nat>)
      requires Owned(sb, used0, blocks, inodes0, owner) && i < |inodes0| && ind == inodes0[i].addrs[NDIRECT] != 0
      requires FreedUpTo(used0, owner, i, NDIRECT, used) && |used| == sb.size
      requires logged == logged0 + BitsChanged(sb, used0, used)
      modifies this`used, this`logged
      ensures FreedUpTo(used0, owner, i, MAXFILE + 1, used) && |used| == sb.size
      ensures logged == logged0 + BitsChanged(sb, used0, used)
    {
      hide Ptr, Owned, FreedUpTo, BitsChanged;
      var ok := true;
      IndirectIs(sb, used0, blocks, inodes0, owner, i);
      for j := 0 to NINDIRECT
        invariant FreedUpTo(used0, owner, i, NDIRECT + j, used) && |used| == sb.size
        invariant logged == logged0 + BitsChanged(sb, used0, used)
      {
        FreeNext(sb, used0, blocks, inodes0, owner, i, NDIRECT + j, used);
        PtrEntry(sb, used0, blocks, inodes0, owner, i, j);
        var a := Word(blocks[ind], j);
        if a != 0 {
          BitsNext(sb, used0, used, a);
          ok := Bfree(a);
        }
      }
      FreeNext(sb, used0, blocks, inodes0, owner, i, MAXFILE, used);
      BitsNext(sb, used0, used, ind);
      ok := Bfree(ind);
    }

    /** begin_op, writei, end_op for one chunk: the transaction logs at most MAXOPBLOCKS blocks. */
    method WriteTransaction(i: nat, off: nat, src: Bytes) returns (r: int)
      requires Valid() && Files() && i < |inodes| && off < UINT && |src| <= CHUNK
      modifies this
      ensures Valid() && Files() && ended == old(ended) + [logged] && |logged| <= MAXOPBLOCKS
      ensures r == -1 <==> off > |old(contents)[i]| || off + |src| > MAXFILE * BSIZE
      ensures r == -1 ==> contents == old(contents)
      ensures r != -1 ==> && 0 <= r <= |src| && off <= |old(contents)[i]|
                          && contents == old(contents)[i := Patched(old(contents)[i], off, src[..r])]
                          && (r < |src| ==> forall b :: 0 <= b < sb.size ==> used[b])
                          && Logs(sb, old(used), old(blocks), old(inodes), used, blocks, inodes, i, logged)
      ensures r != -1 ==> WroteBlocks(sb, old(blocks), old(inodes), blocks, inodes, i, off, |src|, r,
                                      {}, sb.inodestart + i / IPB, logged)
    {
      hide Owned, Sized, HoldsAll, WriteCost, Logs, WroteBlocks;
      logged := {};
      r := Writei(i, off, src);
      FilewriteBudget(off, |src|);
      assert r != -1 ==> logged - {} == logged;
      ended := ended + [logged];
    }

    /**
     filewrite of an inode: chunks of at most CHUNK bytes, each in its own transaction. `w` bytes are
     written; all of them, unless the file or the disk is full or `off` is past the end.
     */
    method Filewrite(i: nat, off: nat, src: Bytes) returns (ret: int, off': nat, ghost w: nat)
      requires Valid() && Files() && i < |inodes| && off < UINT
      modifies this
      ensures Valid() && Files() && old(ended) <= ended
      ensures forall k :: |old(ended)| <= k < |ended| ==> |ended[k]| <= MAXOPBLOCKS
      ensures w <= |src| && off' == off + w && ret == if w == |src| then |src| else -1
      ensures WrittenTo(old(contents), contents, i, off, src[..w])
      ensures w < |src| ==> || off > |old(contents)[i]| || off + |src| > MAXFILE * BSIZE
                            || forall b :: 0 <= b < sb.size ==> used[b]
    {
      hide Owned, Sized, HoldsAll, Patched, FileSystem.Valid, WroteBlocks, Logs;
      var k := 0;
      off', w := off, 0;
      WrittenNone(contents, i, off);
      assert src[..w] == [];
      while k < |src|
        invariant k == w <= |src| && off' == off + k < UINT
        invariant Valid() && Files() && old(ended) <= ended
        invariant forall k :: |old(ended)| <= k < |ended| ==> |ended[k]| <= MAXOPBLOCKS
        invariant WrittenTo(old(contents), contents, i, off, src[..w])
      {
        var n1 := if |src| - k > CHUNK then CHUNK else |src| - k;
        ghost var before := contents;
        var r := WriteTransaction(i, off', src[k..k + n1]);
        if r > 0 {
          WrittenMore(old(contents), before, contents, i, off, src, k, n1, r);
          off', w := off' + r, w + r;
        } else if r == 0 {
          WrittenZero(before, contents, i, off', src[k..k + n1]);
        }
        if r != n1 { break; }
        k := k + r;
      }
      ret := if k == |src| then |src| else -1;
    }
  }

  // ----- truncation

  /** Of the blocks of file i, those of its first `n` pointers are free again; the bitmap is otherwise as before. */
  ghost predicate FreedUpTo(used0: seq<bool>, owner: map<nat, Owner>, i: nat, n: nat, used: seq<bool>) {
    |used| == |used0| && forall a: nat :: a < |used| ==>
      (used[a] <==> used0[a] && !(a in owner && owner[a].i == i && owner[a].k < n))
  }

  ghost function OthersOf(owner: map<nat, Owner>, i: nat): (r: map<nat, Owner>) {
    map a | a in owner && owner[a].i != i :: owner[a]
  }

  lemma FreedNone(sb: Superblock, used: seq<bool>, blocks: seq<Bytes>, inodes: seq<Inode>, owner: map<nat, Owner>,
                  i: nat)
    requires i < |inodes|
    ensures FreedUpTo(used, owner, i, 0, used)
    ensures inodes == inodes[i := inodes[i].(addrs := Zeros(0) + inodes[i].addrs[0..])]
  {
    assert Zeros(0) + inodes[i].addrs[0..] == inodes[i].addrs;
  }

  lemma ZeroedNext(addrs: seq<nat>, k: nat)
    requires k < |addrs|
    ensures var now := Zeros(k) + addrs[k..];
            now[k] == addrs[k] && now[k := 0] == Zeros(k + 1) + addrs[k + 1..]
    ensures addrs[k] == 0 ==> Zeros(k) + addrs[k..] == Zeros(k + 1) + addrs[k + 1..]
  {
  }

  /** The block of the next pointer, if any, is still marked; freeing it advances the truncation. */
  lemma FreeNext(sb: Superblock, used0: seq<bool>, blocks: seq<Bytes>, inodes: seq<Inode>, owner: map<nat, Owner>,
                 i: nat, k: nat, used: seq<bool>)
    requires Owned(sb, used0, blocks, inodes, owner) && i < |inodes| && k <= MAXFILE
    requires FreedUpTo(used0, owner, i, k, used)
    ensures var p := Ptr(blocks, inodes[i], k);
            if p == 0 then FreedUpTo(used0, owner, i, k + 1, used)
            else p < |used| == |used0| && used[p] && used0[p] && FreedUpTo(used0, owner, i, k + 1, used[p := false])
    ensures k <= NDIRECT ==> inodes[i].addrs[k] == Ptr(blocks, inodes[i], if k == NDIRECT then MAXFILE else k)
    ensures k == MAXFILE ==> inodes[i].addrs[NDIRECT] == Ptr(blocks, inodes[i], k)
  {
    var p := Ptr(blocks, inodes[i], k);
    assert PtrOk(blocks, inodes, owner, i, k);
    if p != 0 { assert OwnOk(sb, used0, blocks, inodes, owner, p); }
    forall a: nat | a < |used| && a in owner && owner[a] == Owner(i, k) ensures a == p && p != 0 {
      assert OwnOk(sb, used0, blocks, inodes, owner, a);
    }
  }

  /** Without an indirect block there is nothing beyond the direct ones. */
  lemma {:induction false} FreeRest(sb: Superblock, used0: seq<bool>, blocks: seq<Bytes>, inodes: seq<Inode>,
                                    owner: map<nat, Owner>, i: nat, used: seq<bool>)
    requires Owned(sb, used0, blocks, inodes, owner) && i < |inodes| && FreedUpTo(used0, owner, i, NDIRECT, used)
    requires inodes[i].addrs[NDIRECT] == 0
    ensures FreedUpTo(used0, owner, i, MAXFILE + 1, used)
  {
    forall a: nat | a < |used| && a in owner && owner[a].i == i ensures owner[a].k < NDIRECT {
      assert OwnOk(sb, used0, blocks, inodes, owner, a);
    }
  }

  lemma PtrEntry(sb: Superblock, used: seq<bool>, blocks: seq<Bytes>, inodes: seq<Inode>, owner: map<nat, Owner>,
                 i: nat, j: nat)
    requires Owned(sb, used, blocks, inodes, owner) && i < |inodes| && j < NINDIRECT && inodes[i].addrs[NDIRECT] != 0
    ensures inodes[i].addrs[NDIRECT] < |blocks| && |blocks[inodes[i].addrs[NDIRECT]]| == BSIZE
    ensures Ptr(blocks, inodes[i], NDIRECT + j) == Word(blocks[inodes[i].addrs[NDIRECT]], j)
  {
    IndirectIs(sb, used, blocks, inodes, owner, i);
  }

  lemma TruncOwned(sb: Superblock, used: seq<bool>, blocks: seq<Bytes>, inodes: seq<Inode>, owner: map<nat, Owner>,
                   i: nat,
                   used': seq<bool>, contents: seq<Bytes>)
    requires Owned(sb, used, blocks, inodes, owner) && i < |inodes| && FreedUpTo(used, owner, i, MAXFILE + 1, used')
    requires Contains(blocks, inodes, contents)
    ensures var inodes' := inodes[i := Inode(Zeros(NDIRECT + 1), 0)];
            && Sized(sb, used', blocks, inodes') && Owned(sb, used', blocks, inodes', OthersOf(owner, i))
            && Contains(blocks, inodes', contents[i := []])
  {
    var inodes' := inodes[i := Inode(Zeros(NDIRECT + 1), 0)];
    var owner' := OthersOf(owner, i);
    forall x: nat, y: nat | x < |inodes'| && y <= MAXFILE ensures PtrOk(blocks, inodes', owner', x, y) {
      assert PtrOk(blocks, inodes, owner, x, y);
    }
    forall b | b in owner' ensures OwnOk(sb, used', blocks, inodes', owner', b) {
      assert OwnOk(sb, used, blocks, inodes, owner, b);
    }
    OwnedUsed(sb, used, blocks, inodes, owner);
    forall a: nat | a < sb.size && used'[a] ensures a < sb.datastart || a in owner' {
      if a in owner { assert OwnOk(sb, used, blocks, inodes, owner, a); }
    }
  }

  lemma SliceJoin(s: Bytes, a: nat, b: nat, c: nat)
    requires a <= b <= c <= |s|
    ensures s[a..b] + s[b..c] == s[a..c]
  {
  }

  lemma FileSize(blocks: seq<Bytes>, inodes: seq<Inode>, contents: seq<Bytes>, i: nat)
    requires Contains(blocks, inodes, contents) && i < |inodes|
    ensures |contents| == |inodes| && inodes[i].size == |contents[i]|
  {
  }

  lemma RequestedIs(c: Bytes, off: nat, n: nat)
    ensures off > |c| || off + n >= UINT ==> Requested(c, off, n) == []
    ensures off <= |c| && off + n < UINT ==>
              Requested(c, off, n) == c[off..off + if off + n > |c| then |c| - off else n]
  {
  }

  /** One block's worth of a read. */
  lemma ReadMore(sb: Superblock, blocks: seq<Bytes>, inodes: seq<Inode>, contents: seq<Bytes>, i: nat, at: nat, m: nat)
    requires Contains(blocks, inodes, contents) && i < |inodes| && 0 < m && at % BSIZE + m <= BSIZE
    requires at + m <= |contents[i]|
    ensures var a := Ptr(blocks, inodes[i], at / BSIZE);
            && at / BSIZE < MAXFILE && 0 < a < |blocks| && |blocks[a]| == BSIZE
            && blocks[a][at % BSIZE..at % BSIZE + m] == contents[i][at..at + m]
  {
    assert IsContent(blocks, inodes[i], contents[i]);
    assert Holds(blocks, inodes[i], at, contents[i][at]);
    var a := Ptr(blocks, inodes[i], at / BSIZE);
    var got, want := blocks[a][at % BSIZE..at % BSIZE + m], contents[i][at..at + m];
    forall d | 0 <= d < m ensures got[d] == want[d] {
      assert Holds(blocks, inodes[i], at + d, contents[i][at + d]);
      assert (at + d) / BSIZE == at / BSIZE && (at + d) % BSIZE == at % BSIZE + d;
    }
  }

  // ----- the block budget of a transaction

  /** How many file blocks the bytes [off, off + n) touch. */
  function Blocks(off: nat, n: nat): (b: nat) {
    if n == 0 then 0 else (off + n - 1) / BSIZE - off / BSIZE + 1
  }

  /**
   A bound on the blocks writei logs: each block it touches, a bitmap block for each that is new (the
   first is not, when `off` is inside it), the indirect block and its bitmap block, and the inode.
   */
  function WriteCost(off: nat, n: nat): (c: nat) {
    var b := Blocks(off, n);
    b + (if b > 0 && off % BSIZE != 0 then b - 1 else b) + 2 + 1
  }

  /**
   A write of `r` of `n` bytes at `off` of file `i`: the file blocks in the range have a block, no other pointer
   changes, a short write stops at a file block that has none; and exactly what is logged, `iblock` by iupdate.
   */
  ghost predicate WroteBlocks(sb: Superblock, b0: seq<Bytes>, n0: seq<Inode>, b1: seq<Bytes>, n1: seq<Inode>,
                              i: nat, off: nat, n: nat, r: nat, was: set<nat>, iblock: nat, now: set<nat>) {
    && i < |n0| == |n1| && OthersKeep(b0, n0, b1, n1, i)
    && var p, p', first, k := Ptrs(b0, n0[i]), Ptrs(b1, n1[i]), off / BSIZE, Blocks(off, r);
    && Filled(p, p', first, k) && now == was + WriteLogs(sb, p, p', first, k) + {iblock}
    && (p'[MAXFILE] != p[MAXFILE] ==> PastDirect(first, Blocks(off, n)))
    && (r < n ==> k < Blocks(off, n) && NoBlock(p', first + k))
  }

  lemma KeepSize(b0: seq<Bytes>, n0: seq<Inode>, b1: seq<Bytes>, n1: seq<Inode>, i: nat, size: nat)
    requires OthersKeep(b0, n0, b1, n1, i) && i < |n1|
    ensures OthersKeep(b0, n0, b1, n1[i := n1[i].(size := size)], i)
  {
  }

  /** The most bytes filewrite writes in one transaction. */
  const CHUNK: nat := (MAXOPBLOCKS - 1 - 1 - 2) / 2 * BSIZE

  /** Whatever the offset and the alignment, a chunk of filewrite fits in a transaction. */
  lemma FilewriteBudget(off: nat, n: nat)
    requires n <= CHUNK
    ensures WriteCost(off, n) <= MAXOPBLOCKS
  {
    assert CHUNK == 3 * BSIZE;
    if n > 0 { assert (off + n - 1) / BSIZE <= off / BSIZE + 3; }
  }

  /** `after` is `before` with `written` at offset `off` of file `i`; writing nothing needs no valid offset. */
  ghost predicate WrittenTo(before: seq<Bytes>, after: seq<Bytes>, i: nat, off: nat, written: Bytes)
  {
    && i < |before|
    && (written == [] ==> after == before)
    && (written != [] ==> off <= |before[i]| && after == before[i := Patched(before[i], off, written)])
  }

  lemma WrittenNone(files: seq<Bytes>, i: nat, off: nat)
    requires i < |files|
    ensures WrittenTo(files, files, i, off, [])
  {
  }

  lemma WrittenZero(before: seq<Bytes>, after: seq<Bytes>, i: nat, off: nat, src: Bytes)
    requires i < |before| && off <= |before[i]|
    requires after == before[i := Patched(before[i], off, src[..0])]
    ensures after == before
  {
    assert Patched(before[i], off, src[..0]) == before[i];
  }

  lemma WrittenMore(first: seq<Bytes>, before: seq<Bytes>, after: seq<Bytes>, i: nat, off: nat, src: Bytes,
                    w: nat, n: nat, r: nat)
    requires w + n <= |src| && 0 < r <= n && WrittenTo(first, before, i, off, src[..w])
    requires i < |before| && off + w <= |before[i]|
    requires after == before[i := Patched(before[i], off + w, src[w..w + n][..r])]
    ensures WrittenTo(first, after, i, off, src[..w + r])
  {
    assert src[w..w + n][..r] == src[w..w + r];
    if w == 0 {
      assert src[0..r] == src[..w + r];
    } else {
      assert Patched(Patched(first[i], off, src[..w]), off + w, src[w..w + r])
          == Patched(first[i], off, src[..w + r]);
    }
  }

  /** As many values as places at most. */
  lemma {:induction false} ImageBound(g: seq<nat>, lo: nat, hi: nat, s: set<nat>)
    requires lo <= hi <= |g| && forall b :: b in s ==> exists k :: lo <= k < hi && g[k] == b
    ensures |s| <= hi - lo
    decreases hi
  {
    if lo == hi {
      assert s == {};
    } else {
      var rest := s - {g[hi - 1]};
      ImageBound(g, lo, hi - 1, rest);
      Union(rest, {g[hi - 1]});
      Counting.SubsetSize(s, rest + {g[hi - 1]});
    }
  }

  lemma DataBound(p: seq<nat>, first: nat, n: nat)
    requires first + n <= |p|
    ensures |DataLogs(p, first, n)| <= n
  {
    ImageBound(p, first, first + n, DataLogs(p, first, n));
  }

  lemma BitBound(sb: Superblock, p: seq<nat>, p': seq<nat>, first: nat, n: nat)
    requires first + n <= |p| == |p'|
    ensures |BitLogs(sb, p, p', first, n)| <= if n > 0 && p[first] != 0 then n - 1 else n
  {
    var g := seq(|p'|, k requires 0 <= k < |p'| => BBlock(sb, p'[k]));
    var lo := if n > 0 && p[first] != 0 then first + 1 else first;
    var s := BitLogs(sb, p, p', first, n);
    forall b | b in s ensures exists k :: lo <= k < first + n && g[k] == b {
      var k :| first <= k < first + n && p[k] == 0 && BBlock(sb, p'[k]) == b;
      assert g[k] == b;
    }
    ImageBound(g, lo, first + n, s);
  }

  /** The first file block was there already when `off` is inside it. */
  lemma WriteLogsSize(sb: Superblock, p: seq<nat>, p': seq<nat>, off: nat, tot: nat, n: nat, was: set<nat>,
                      now: set<nat>)
    requires tot <= n && Filled(p, p', off / BSIZE, Blocks(off, tot))
    requires off / BSIZE <= MAXFILE && (off % BSIZE != 0 ==> p[off / BSIZE] != 0)
    requires now == was + WriteLogs(sb, p, p', off / BSIZE, Blocks(off, tot))
    ensures |now - was| + 1 <= WriteCost(off, n)
  {
    var first, k := off / BSIZE, Blocks(off, tot);
    var D, B := DataLogs(p', first, k), BitLogs(sb, p, p', first, k);
    var pair := {p'[MAXFILE], BBlock(sb, p'[MAXFILE])};
    DataBound(p', first, k);
    BitBound(sb, p, p', first, k);
    Union(D, B);
    Union(D + B, pair);
    assert EntryLogs(p, p', first, k) + Fresh(sb, p[MAXFILE], p'[MAXFILE]) <= pair;
    Counting.SubsetSize(now - was, D + B + pair);
    assert k <= Blocks(off, n);
  }

  lemma OneMore(was: set<nat>, now: set<nat>, b: nat)
    ensures |now + {b} - was| <= |now - was| + 1
  {
    Union(now - was, {b});
    Counting.SubsetSize(now + {b} - was, now - was + {b});
  }

  lemma Union(a: set<nat>, b: set<nat>)
    ensures |a + b| <= |a| + |b|
  {
    assert a + b == a + (b - a);
    assert b == (b - a) + (a * b);
  }

  lemma BlocksNext(off: nat, tot: nat, at: nat, next: nat, n: nat)
    requires tot < n && at == off + tot && (0 < tot ==> at % BSIZE == 0)
    requires next == tot + if n - tot < BSIZE - at % BSIZE then n - tot else BSIZE - at % BSIZE
    ensures tot < next <= n && at % BSIZE + (next - tot) <= BSIZE
    ensures Blocks(off, next) == Blocks(off, tot) + 1
    ensures next < n ==> (off + next) % BSIZE == 0
    ensures Blocks(off, tot) == 0 ==> tot == 0
    ensures n > 0 && off + n <= MAXFILE * BSIZE ==> at / BSIZE < MAXFILE
  {
  }

  /** The copy goes on where a block begins, in the next file block. */
  lemma BlockOf(off: nat, tot: nat, n: nat)
    requires tot < n && (0 < tot ==> (off + tot) % BSIZE == 0)
    ensures (off + tot) / BSIZE == off / BSIZE + Blocks(off, tot) && Blocks(off, tot) < Blocks(off, n)
  {
    var q := (off + tot) / BSIZE;
    assert q <= (off + n - 1) / BSIZE;
    if tot > 0 { assert (off + tot - 1) / BSIZE == q - 1; }
  }

  /** A block in which the file already has a byte is allocated. */
  lemma StartsAllocated(blocks: seq<Bytes>, inodes: seq<Inode>, contents: seq<Bytes>, i: nat, at: nat, bytes: Bytes)
    requires InFlight(blocks, inodes, contents, i, bytes) && at <= |bytes|
    ensures at % BSIZE != 0 ==> Ptr(blocks, inodes[i], at / BSIZE) != 0
  {
    if at % BSIZE != 0 {
      assert Holds(blocks, inodes[i], at - 1, bytes[at - 1]);
      assert (at - 1) / BSIZE == at / BSIZE;
    }
  }

  lemma WroteNone(blocks: seq<Bytes>, inodes: seq<Inode>, contents: seq<Bytes>, i: nat, off: nat, src: Bytes)
    requires Contains(blocks, inodes, contents) && i < |inodes| && off <= |contents[i]|
    ensures Patched(contents[i], off, src[..0]) == contents[i] && InFlight(blocks, inodes, contents, i, contents[i])
  {
  }

  lemma WroteMore(c: Bytes, off: nat, src: Bytes, tot: nat, next: nat)
    requires off <= |c| && tot <= next <= |src|
    ensures Patched(Patched(c, off, src[..tot]), off + tot, src[tot..next]) == Patched(c, off, src[..next])
  {
  }

  lemma Finish(sb: Superblock, used: seq<bool>, blocks: seq<Bytes>, inodes: seq<Inode>, owner: map<nat, Owner>,
               contents: seq<Bytes>, i: nat, bytes: Bytes)
    requires Owned(sb, used, blocks, inodes, owner) && InFlight(blocks, inodes, contents, i, bytes)
    ensures var inodes' := inodes[i := inodes[i].(size := |bytes|)];
            Owned(sb, used, blocks, inodes', owner) && Contains(blocks, inodes', contents[i := bytes])
  {
    var inodes' := inodes[i := inodes[i].(size := |bytes|)];
    forall x: nat, y: nat | x < |inodes| && y <= MAXFILE ensures PtrOk(blocks, inodes', owner, x, y) {
      assert PtrOk(blocks, inodes, owner, x, y);
    }
    forall b | b in owner ensures OwnOk(sb, used, blocks, inodes', owner, b) {
      assert OwnOk(sb, used, blocks, inodes, owner, b);
    }
    forall k: nat | k < |bytes| ensures Holds(blocks, inodes'[i], k, bytes[k]) {
      assert Holds(blocks, inodes[i], k, bytes[k]);
    }
  }

  /** File i holds `bytes`, whatever its size says; every other file is as recorded. */
  ghost predicate InFlight(blocks: seq<Bytes>, inodes: seq<Inode>, contents: seq<Bytes>, i: nat, bytes: Bytes) {
    && |contents| == |inodes| && i < |inodes| && HoldsAll(blocks, inodes[i], bytes)
    && forall x :: 0 <= x < |inodes| && x != i ==> IsContent(blocks, inodes[x], contents[x])
  }

  lemma BmapFlight(sb: Superblock, used: seq<bool>, blocks: seq<Bytes>, inodes: seq<Inode>, owner: map<nat, Owner>,
                   blocks': seq<Bytes>, inodes': seq<Inode>, owner': map<nat, Owner>, i: nat, bn: nat,
                   contents: seq<Bytes>, bytes: Bytes)
    requires Owned(sb, used, blocks, inodes, owner) && Extended(blocks, inodes, owner, blocks', inodes', owner', i, bn)
    requires i < |inodes| && Ptr(blocks, inodes[i], bn) == 0 && InFlight(blocks, inodes, contents, i, bytes)
    ensures InFlight(blocks', inodes', contents, i, bytes) && inodes'[i].size == inodes[i].size && |inodes'| == |inodes|
  {
    BmapHolds(sb, used, blocks, inodes, owner, blocks', inodes', owner', i, bn, i, bytes);
    forall x | 0 <= x < |inodes| && x != i ensures IsContent(blocks', inodes'[x], contents[x]) {
      BmapHolds(sb, used, blocks, inodes, owner, blocks', inodes', owner', i, bn, x, contents[x]);
    }
  }

  lemma SpliceFlight(sb: Superblock, used: seq<bool>, blocks: seq<Bytes>, inodes: seq<Inode>, owner: map<nat, Owner>,
                     i: nat, off: nat, chunk: Bytes, contents: seq<Bytes>, bytes: Bytes)
    requires Owned(sb, used, blocks, inodes, owner) && i < |inodes| && off / BSIZE < MAXFILE
    requires off % BSIZE + |chunk| <= BSIZE && off <= |bytes| && Ptr(blocks, inodes[i], off / BSIZE) != 0
    requires InFlight(blocks, inodes, contents, i, bytes)
    ensures var a := Ptr(blocks, inodes[i], off / BSIZE);
            && a < |blocks| && |blocks[a]| == BSIZE
            && var blocks' := blocks[a := Splice(blocks[a], off % BSIZE, chunk)];
            && Owned(sb, used, blocks', inodes, owner)
            && Ptrs(blocks', inodes[i]) == Ptrs(blocks, inodes[i]) && OthersKeep(blocks, inodes, blocks', inodes, i)
            && InFlight(blocks', inodes, contents, i, Patched(bytes, off, chunk))
  {
    SpliceHolds(sb, used, blocks, inodes, owner, i, off, chunk, bytes);
    var a := Ptr(blocks, inodes[i], off / BSIZE);
    var blk := Splice(blocks[a], off % BSIZE, chunk);
    SpliceOwned(sb, used, blocks, inodes, owner, i, off / BSIZE, blk);
    hide Ptr;
    assert Ptrs(blocks[a := blk], inodes[i]) == Ptrs(blocks, inodes[i]);
    forall x | 0 <= x < |inodes| && x != i ensures IsContent(blocks[a := blk], inodes[x], contents[x]) {
      SpliceOthers(sb, used, blocks, inodes, owner, i, off / BSIZE, blk, x, contents[x]);
    }
  }

  lemma IndirectIs(sb: Superblock, used: seq<bool>, blocks: seq<Bytes>, inodes: seq<Inode>, owner: map<nat, Owner>,
                   i: nat)
    requires Owned(sb, used, blocks, inodes, owner) && i < |inodes| && inodes[i].addrs[NDIRECT] != 0
    ensures inodes[i].addrs[NDIRECT] in owner && owner[inodes[i].addrs[NDIRECT]] == Owner(i, MAXFILE)
    ensures sb.datastart <= inodes[i].addrs[NDIRECT] < sb.size
  {
    assert PtrOk(blocks, inodes, owner, i, MAXFILE);
    assert OwnOk(sb, used, blocks, inodes, owner, inodes[i].addrs[NDIRECT]);
  }
}
