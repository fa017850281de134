/**
 A page fault in a mapped file (the end of vmfault): the region table of Vma names the file and the offset, readi of
 Fs brings the bytes, and Vm maps the page.
 */
module MappedFile {
  import opened Cow
  import opened PageTable
  import Fs
  import Vm
  import Vma

  /** The page of a file at offset `off`, with zeros after its end. */
  function PageAt(bytes: Fs.Bytes, off: nat): (page: Fs.Bytes)
    ensures |page| == 4096
    ensures forall k :: 0 <= k < 4096 ==> page[k] == if off + k < |bytes| then bytes[off + k] else 0
  {
    if off >= |bytes| then Fs.Zeros(4096)
    else if off + 4096 > |bytes| then bytes[off..] + Fs.Zeros(4096 - (|bytes| - off))
    else bytes[off..off + 4096]
  }

  /** PROT_READ, PROT_WRITE and PROT_EXEC are bits 0, 1 and 2. */
  predicate Bit(prot: nat, b: nat) {
    (if b == 0 then prot else if b == 1 then prot / 2 else prot / 4) % 2 == 1
  }

  /** Where in its file a region has address `va`, in 64-bit arithmetic. */
  function FileOffset(v: Vma.Vma, va: nat): (off: nat) {
    (v.off + va - v.addr) % Vma.U64
  }

  /** What the region table and the files say about the page at `va`; `inode` finds the inode of an open file. */
  ghost predicate Describes(file: Vm.FilePage, vmas: seq<Vma.Vma>, contents: seq<Fs.Bytes>, inode: map<nat, nat>,
                            va: nat)
  {
    && |file.bytes| == 4096
    && (file.NoFile? <==> !Vma.InSome(vmas, va))
    && forall i :: 0 <= i < |vmas| && Vma.Contains(vmas[i], va) ==>
         && vmas[i].file in inode && inode[vmas[i].file] < |contents|
         && file == Vm.File(Bit(vmas[i].prot, 0), Bit(vmas[i].prot, 1), Bit(vmas[i].prot, 2),
                            PageAt(contents[inode[vmas[i].file]], FileOffset(vmas[i], va)), true)
  }

  ghost predicate FilesOpen(vmas: seq<Vma.Vma>, inode: map<nat, nat>, n: nat) {
    forall i :: 0 <= i < |vmas| && vmas[i].used ==> vmas[i].file in inode && inode[vmas[i].file] < n
  }

  /** The search of vmfault: regions are disjoint, so there is at most one to find. */
  method FindRegion(vmas: seq<Vma.Vma>, va: nat) returns (i: int)
    requires Vma.TableOk(vmas)
    ensures -1 <= i < |vmas|
    ensures if i < 0 then !Vma.InSome(vmas, va)
            else forall j :: 0 <= j < |vmas| ==> (Vma.Contains(vmas[j], va) <==> j == i)
  {
    for k := 0 to |vmas|
      invariant forall j :: 0 <= j < k ==> !Vma.Contains(vmas[j], va)
    {
      if !vmas[k].used || va < vmas[k].addr || va >= vmas[k].addr + vmas[k].len { continue; }
      return k;
    }
    return -1;
  }

  /** The bytes of a page: readi of what the file has of it into a zeroed page. It cannot come up short. */
  method ReadPage(fs: Fs.FileSystem, ip: nat, off: nat) returns (page: Fs.Bytes)
    requires fs.Valid() && fs.Files() && ip < |fs.inodes|
    modifies fs
    ensures unchanged(fs) && page == PageAt(fs.contents[ip], off)
  {
    hide Fs.Owned, Fs.Contains;
    Fs.FileSize(fs.blocks, fs.inodes, fs.contents, ip);
    page := Fs.Zeros(4096);
    var size := fs.inodes[ip].size;
    SizeBound(fs.blocks, fs.inodes, fs.contents, ip);
    if off < size {
      var n := if off + 4096 > size then size - off else 4096;
      Fs.RequestedIs(fs.contents[ip], off, n);
      var r, dst := fs.Readi(ip, off, n, 4096);
      page := dst + page[n..];
    }
  }

  lemma SizeBound(blocks: seq<Fs.Bytes>, inodes: seq<Fs.Inode>, contents: seq<Fs.Bytes>, i: nat)
    requires Fs.Contains(blocks, inodes, contents) && i < |inodes|
    ensures inodes[i].size <= Fs.MAXFILE * Fs.BSIZE
  {
    var c := contents[i];
    assert Fs.IsContent(blocks, inodes[i], c);
    if |c| > 0 { assert Fs.Holds(blocks, inodes[i], |c| - 1, c[|c| - 1]); }
  }

  method FilePageAt(vmas: seq<Vma.Vma>, fs: Fs.FileSystem, inode: map<nat, nat>, va: nat) returns (file: Vm.FilePage)
    requires Vma.TableOk(vmas) && fs.Valid() && fs.Files() && FilesOpen(vmas, inode, |fs.inodes|)
    modifies fs
    ensures unchanged(fs) && Describes(file, vmas, fs.contents, inode, va)
  {
    hide Fs.Owned, Fs.Contains, Vma.TableOk;
    var i := FindRegion(vmas, va);
    if i < 0 { return Vm.NoFile(ZeroPage()); }
    var v := vmas[i];
    assert Vma.Contains(v, va);
    Fs.FileSize(fs.blocks, fs.inodes, fs.contents, inode[v.file]);
    var page := ReadPage(fs, inode[v.file], FileOffset(v, va));
    file := Vm.File(Bit(v.prot, 0), Bit(v.prot, 1), Bit(v.prot, 2), page, true);
  }

  /** No region reaches the trapframes. */
  lemma AboveRegions(vmas: seq<Vma.Vma>, va: nat)
    requires Vma.TableOk(vmas) && va >= Vma.HIGH
    ensures !Vma.InSome(vmas, va)
  {
    forall i | 0 <= i < |vmas| ensures !Vma.Contains(vmas[i], va) { assert Vma.RegionOk(vmas[i]); }
  }

  /** Some region has the address and the protection the access needs. */
  ghost predicate Allows(vmas: seq<Vma.Vma>, va: nat, read: bool) {
    exists i :: && 0 <= i < |vmas| && Vma.Contains(vmas[i], va)
                && if read then Bit(vmas[i].prot, 0) || Bit(vmas[i].prot, 2) else Bit(vmas[i].prot, 1)
  }

  /** `page` holds the 4096 bytes of a file at offset `o` modulo 2^64, and zeros where the file has ended. */
  ghost predicate Loaded(page: Bytes, file: Fs.Bytes, o: nat) {
    && |page| == 4096
    && forall k :: 0 <= k < 4096 ==>
         page[k] == if o % 0x1_0000_0000_0000_0000 + k < |file| then file[o % 0x1_0000_0000_0000_0000 + k] else 0
  }

  /** `now` is `e` with a new page at `s` that shows the file at offset `o` and has the protection `prot`. */
  ghost predicate Shows(e: Eager, now: Eager, s: Slot, file: Fs.Bytes, o: nat, prot: nat) {
    && s in now.pages && Loaded(now.pages[s].bytes, file, o)
    && now == e.(pages := e.pages[s := Page(now.pages[s].bytes, prot / 2 % 2 == 1, prot % 2 == 1, prot / 4 % 2 == 1,
                                            true)])
  }

  /**
   usertrap's call of vmfault. A page that is not there yet appears exactly if some region allows the access and there
   is memory for it and the tables it lacks. Its byte k is then byte `o + k` of the region's file, where `o` is as far
   into the file from the offset of the region as the page is into the region.
   */
  method Fault(vm: Vm.Vm, regions: Vma.Regions, fs: Fs.FileSystem, inode: map<nat, nat>, root: nat, va: nat, read: bool)
    returns (panic: bool, pa: nat)
    requires vm.Valid() && root in vm.size && regions.Valid() && fs.Valid() && fs.Files()
    requires FilesOpen(regions.vmas, inode, |fs.inodes|)
    modifies fs, vm`data, vm`held, vm.pt, vm.kmem
    ensures unchanged(fs) && vm.Valid() && (panic <==> va >= Vma.MAXVA)
    ensures !panic && !Visible(old(vm.M()), Slot(root, va / 4096)) ==>
              (pa == 0 <==> || !Allows(regions.vmas, va / 4096 * 4096, read)
                            || |old(vm.kmem.free)| < 1 + Need(old(vm.pt.tables), root, va / 4096))
    ensures pa != 0 && !Visible(old(vm.M()), Slot(root, va / 4096)) ==>
              exists i :: && 0 <= i < |regions.vmas| && Vma.Contains(regions.vmas[i], va / 4096 * 4096)
                          && var v := regions.vmas[i];
                          && v.file in inode && inode[v.file] < |fs.contents|
                          && Shows(old(Abs(vm.M())), Abs(vm.M()), Slot(root, va / 4096), fs.contents[inode[v.file]],
                                   v.off + (va / 4096 * 4096 - v.addr), v.prot)
  {
    hide Vm.Vm.Valid, Fs.Owned, Fs.Contains, Vma.TableOk, Abs, Need, Vm.Took, Shows;
    var page := va / 4096 * 4096;
    var file := FilePageAt(regions.vmas, fs, inode, page);
    if page >= Vma.HIGH { AboveRegions(regions.vmas, page); }
    hide Describes;
    Describing(file, regions.vmas, fs.contents, inode, page);
    panic, pa := vm.Vmfault(root, va / 4096, read, file);
    if pa != 0 && !Visible(old(vm.M()), Slot(root, va / 4096)) {
      ghost var i := Showing(old(Abs(vm.M())), Abs(vm.M()), Slot(root, va / 4096), file, regions.vmas, fs.contents,
                             inode, page);
    }
  }

  lemma Describing(file: Vm.FilePage, vmas: seq<Vma.Vma>, contents: seq<Fs.Bytes>, inode: map<nat, nat>, va: nat)
    requires Describes(file, vmas, contents, inode, va) && Vma.TableOk(vmas)
    ensures |file.bytes| == 4096 && (file.NoFile? <==> !Vma.InSome(vmas, va))
    ensures !file.NoFile? ==> file.readOk
    ensures forall read :: Allows(vmas, va, read) <==> !file.NoFile? && if read then file.r || file.x else file.w
  {
    if !file.NoFile? {
      var i :| 0 <= i < |vmas| && Vma.Contains(vmas[i], va);
      forall j | 0 <= j < |vmas| && Vma.Contains(vmas[j], va) ensures j == i {
        assert Vma.Apart(vmas[i].addr, vmas[i].len, vmas[j]) || i == j;
      }
    }
  }

  /** The page that appears is the one the region and the file describe. */
  lemma Showing(e: Eager, now: Eager, s: Slot, file: Vm.FilePage, vmas: seq<Vma.Vma>, contents: seq<Fs.Bytes>,
                inode: map<nat, nat>, va: nat) returns (i: nat)
    requires Describes(file, vmas, contents, inode, va) && !file.NoFile?
    requires now == e.(pages := e.pages[s := Page(file.bytes, file.w, file.r, file.x, true)])
    ensures && i < |vmas| && Vma.Contains(vmas[i], va) && vmas[i].file in inode
            && inode[vmas[i].file] < |contents|
            && Shows(e, now, s, contents[inode[vmas[i].file]], vmas[i].off + (va - vmas[i].addr), vmas[i].prot)
  {
    i :| i < |vmas| && Vma.Contains(vmas[i], va);
  }

  /**
   The protection asked of mmap is what faults in the new region go by: reads need PROT_READ or PROT_EXEC, stores
   PROT_WRITE.
   */
  lemma MappedAllows(vmas: seq<Vma.Vma>, vmas': seq<Vma.Vma>, sz: nat, q: Vma.Request, addr: nat, va: nat, read: bool)
    requires Vma.TableOk(vmas') && Vma.Placed(vmas, vmas', sz, q, addr)
    requires addr <= va < addr + Vma.PgRoundUp(q.len)
    ensures Allows(vmas', va, read) <==> if read then q.read || q.exec else q.write
  {
    hide Vma.Highest, Vma.PgRoundUp;
    var i :| 0 <= i < |vmas| && vmas' == vmas[i := Vma.Vma(true, addr, Vma.PgRoundUp(q.len), Vma.Prot(q), q.shared,
                                                          q.off, q.file.value.id)];
    assert Vma.Contains(vmas'[i], va);
    forall j | 0 <= j < |vmas'| && Vma.Contains(vmas'[j], va) ensures j == i {
      assert Vma.Apart(vmas'[i].addr, vmas'[i].len, vmas'[j]) || i == j;
    }
  }
}
