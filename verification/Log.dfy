/**
 The logging layer of xv6-riscv/kernel/log.c over the buffer cache: which blocks are
 pinned while a transaction is open, and the disk writes that commit and recovery make.
 */
module Log {
  import opened BufferCache
  import opened Journal
  import LogSpace

  /** The latest bytes of the logged blocks. */
  ghost function Latest(refs: map<nat, Ref>, disk: Disk, dst: seq<nat>): (tx: Tx)
    requires forall i :: 0 <= i < |dst| ==> dst[i] < |disk|
    ensures tx.dst == dst && |tx.vals| == |dst|
  {
    Tx(dst, seq(|dst|, i requires 0 <= i < |dst| => View(refs, disk, dst[i])))
  }

  /** `refs` is the references of the users plus one pin per logged block. */
  ghost predicate Pins(refs: map<nat, Ref>, held: multiset<nat>, dst: seq<nat>) {
    forall bn: nat :: && (bn in refs <==> bn in held || bn in dst)
                      && (bn in refs ==> refs[bn].count == held[bn] + if bn in dst then 1 else 0)
  }

  /** Referenced blocks that are neither logged nor being modified agree with the disk. */
  ghost predicate Agree(refs: map<nat, Ref>, disk: Disk, except: set<nat>) {
    forall bn :: bn in refs && bn !in except ==> bn < |disk| && refs[bn].data == disk[bn]
  }

  lemma AcquireKeeps(refs: map<nat, Ref>, disk: Disk, held: multiset<nat>, dst: seq<nat>, except: set<nat>, bn: nat)
    requires bn < |disk| && Pins(refs, held, dst) && Agree(refs, disk, except)
    ensures Pins(Acquired(refs, disk, bn), held + multiset{bn}, dst) && Agree(Acquired(refs, disk, bn), disk, except)
  {
  }

  /** A reference to `log`, and one more to `home`, whose bytes are those of `log`. */
  ghost function Copied(refs: map<nat, Ref>, log: nat, home: nat, data: Block): (c: map<nat, Ref>) {
    refs[log := Ref(1, data)][home := Ref((if home in refs then refs[home].count else 0) + 1, data)]
  }

  lemma CopiedAt(refs: map<nat, Ref>, log: nat, home: nat, data: Block)
    requires log !in refs && log != home && home in refs && refs[home].count > 0
    ensures var c := Copied(refs, log, home, data);
            && log in c && c[log] == Ref(1, data) && home in c && c[home].count == refs[home].count + 1
            && log in Released(c, home) && Released(c, home)[log] == Ref(1, data)
  {
  }

  lemma CopiedReleased(refs: map<nat, Ref>, log: nat, home: nat, data: Block)
    requires log !in refs && log != home
    requires home in refs ==> refs[home].count > 0 && refs[home].data == data
    ensures var c := Copied(refs, log, home, data);
            && log in c && home in Released(c, log)
            && Released(Released(c, log), home) == refs
            && (home in refs ==> && log in Released(c, home) && home in Released(Released(c, home), log)
                                 && Released(Released(c, home), log) == refs
                                 && Released(Released(Released(c, home), log), home) == Released(refs, home))
  {
  }

  ghost function InstallTrail(d: Disk, r: Region, dst: seq<nat>, k: nat): (t: seq<Disk>)
    requires k <= |dst| && Targets(r, |d|, dst) && r.start + r.cap < |d|
  {
    if k == 0 then [] else InstallTrail(d, r, dst, k - 1) + [Installed(d, r, dst, k)]
  }

  /** The blocks of a sequence, as a set. */
  ghost function Blocks(dst: seq<nat>): (s: set<nat>) {
    set i | 0 <= i < |dst| :: dst[i]
  }

  class Log {
    const cache: Cache
    const r: Region
    var n: nat
    var block: seq<nat>
    var outstanding: nat
    var committing: bool
    ghost var held: multiset<nat>   // references of the users of the cache
    ghost var loose: set<nat>       // blocks modified but not yet passed to log_write

    ghost predicate Valid()
      reads this, cache
    {
      && cache.Valid()
      && |block| == r.cap && n <= r.cap
      && Formatted(cache.disk, r) && cache.disk[r.start][0] == 0 && Targets(r, |cache.disk|, block[..n])
      && Pins(cache.refs, held, block[..n])
      && Agree(cache.refs, cache.disk, Blocks(block[..n]) + loose)
      && (forall bn :: bn in cache.refs ==> IsHome(r, bn))
      && (forall bn :: bn in loose ==> bn in held)
    }

    /** initlog: recovery over an empty cache of at least two buffers. */
    constructor (cache: Cache, r: Region)
      requires cache.Valid() && cache.refs == map[] && Image(cache.disk, r) && cache.nbuf >= 2
      modifies cache
      ensures this.cache == cache && this.r == r
      ensures Valid() && n == 0 && outstanding == 0 && !committing && held == multiset{} && loose == {}
      ensures cache.refs == map[] && cache.trail == old(cache.trail) + RecoverTrail(old(cache.disk), r)
      ensures |cache.disk| == |old(cache.disk)|
    {
      this.cache, this.r := cache, r;
      n, outstanding, committing := 0, 0, false;
      block := seq(r.cap, _ => 0);
      held, loose := multiset{}, {};
      new;
      Recover();
    }

    /** recover_from_log: exactly the writes of RecoverTrail. */
    method Recover()
      requires cache.Valid() && cache.refs == map[] && Image(cache.disk, r) && cache.nbuf >= 2 && |block| == r.cap
      modifies cache, this`n, this`block
      ensures cache.Valid() && cache.refs == map[] && |block| == r.cap && n == 0
      ensures cache.trail == old(cache.trail) + RecoverTrail(old(cache.disk), r)
      ensures cache.disk == Last(RecoverTrail(old(cache.disk), r))
      ensures Formatted(cache.disk, r) && cache.disk[r.start][0] == 0 && |cache.disk| == |old(cache.disk)|
    {
      hide Cache.Valid;
      ghost var d := cache.disk;
      var ok := ReadHead();
      ghost var dst := block[..n];
      assert InstallTrail(d, r, dst, 0) == [];
      for tail := 0 to n
        invariant cache.Valid() && cache.refs == map[] && n <= |block| == r.cap
        invariant block[..n] == dst == HeadOf(d[r.start])
        invariant cache.disk == Installed(d, r, dst, tail)
        invariant cache.trail == old(cache.trail) + InstallTrail(d, r, dst, tail)
      {
        InstallStep(d, r, dst, tail);
        ok := InstallBlock(tail, true);
      }
      RecoverPlan(d, r);
      n := 0;
      assert block[..n] == [];
      ok := WriteHead();
    }

    /** One iteration of write_log: the cached bytes of a logged block go to its log block. */
    method WriteLogBlock(tail: nat) returns (ok: bool)
      requires cache.Valid() && tail < |block| && r.start + tail + 1 < |cache.disk|
      requires r.start + tail + 1 !in cache.refs
      requires block[tail] in cache.refs
      modifies cache
      ensures cache.Valid()
      ensures ok <==> |old(cache.refs)| < cache.nbuf
      ensures ok ==> && cache.refs == old(cache.refs)
                     && cache.disk == old(cache.disk)[r.start + tail + 1 := old(cache.refs)[block[tail]].data]
                     && cache.trail == old(cache.trail) + [cache.disk]
    {
      hide Cache.Valid, Copied, Released;
      var log, home := r.start + tail + 1, block[tail];
      var to, from;
      cache.Located(home);
      ok, to, from := CopyToLog(log, home);
      if !ok { return; }
      CopiedReleased(old(cache.refs), log, home, old(cache.refs)[home].data);
      CopiedAt(old(cache.refs), log, home, old(cache.refs)[home].data);
      cache.Located(home);
      cache.Brelse(from);
      cache.Located(log);
      cache.Brelse(to);
    }

    /** Reads a home block and its log block, copies one over the other and writes the log block. */
    method CopyToLog(log: nat, home: nat) returns (ok: bool, to: nat, from: nat)
      requires cache.Valid() && log < |cache.disk| && home in cache.refs && log !in cache.refs
      modifies cache
      ensures cache.Valid()
      ensures ok <==> |old(cache.refs)| < cache.nbuf
      ensures ok ==> && cache.refs == Copied(old(cache.refs), log, home, old(cache.refs)[home].data)
                     && cache.disk == old(cache.disk)[log := old(cache.refs)[home].data]
                     && cache.trail == old(cache.trail) + [cache.disk]
                     && log in cache.slot && cache.slot[log] == to && home in cache.slot && cache.slot[home] == from
    {
      hide Cache.Valid;
      from := 0;
      cache.Located(home);
      ok, to := cache.Bread(log);
      if !ok { return; }
      ok, from := cache.Bread(home);
      cache.Located(home);
      cache.Located(log);
      cache.Fill(to, cache.bufs[from].data);
      cache.Located(log);
      cache.Bwrite(to);
    }

    /** Reads a log block and its home block, copies one over the other and writes it home. */
    method CopyHome(log: nat, home: nat) returns (ok: bool, lbuf: nat, dbuf: nat)
      requires cache.Valid() && log < |cache.disk| && home < |cache.disk| && log !in cache.refs && home != log
      modifies cache
      ensures cache.Valid()
      ensures ok <==> |old(cache.refs)| + (if home in old(cache.refs) then 0 else 1) < cache.nbuf
      ensures ok ==> && cache.refs == Copied(old(cache.refs), log, home, old(cache.disk[log]))
                     && cache.disk == old(cache.disk)[home := old(cache.disk[log])]
                     && cache.trail == old(cache.trail) + [cache.disk]
                     && log in cache.slot && cache.slot[log] == lbuf && home in cache.slot && cache.slot[home] == dbuf
    {
      hide Cache.Valid;
      dbuf := 0;
      ok, lbuf := cache.Bread(log);
      if !ok { return; }
      ok, dbuf := cache.Bread(home);
      if !ok { return; }
      cache.Located(log);
      cache.Located(home);
      cache.Fill(dbuf, cache.bufs[lbuf].data);
      cache.Located(home);
      cache.Bwrite(dbuf);
    }

    /** One iteration of install_trans: a log block goes home; outside recovery the pin is dropped. */
    method InstallBlock(tail: nat, recovering: bool) returns (ok: bool)
      requires cache.Valid() && tail < |block| && r.start + tail + 1 < |cache.disk| && block[tail] < |cache.disk|
      requires r.start + tail + 1 !in cache.refs && block[tail] != r.start + tail + 1
      requires if recovering then block[tail] !in cache.refs
               else block[tail] in cache.refs && cache.refs[block[tail]].data == cache.disk[r.start + tail + 1]
      modifies cache
      ensures cache.Valid()
      ensures ok <==> |old(cache.refs)| + (if recovering then 1 else 0) < cache.nbuf
      ensures ok ==> && cache.refs == (if recovering then old(cache.refs) else Released(old(cache.refs), block[tail]))
                     && cache.disk == old(cache.disk)[block[tail] := old(cache.disk)[r.start + tail + 1]]
                     && cache.trail == old(cache.trail) + [cache.disk]
    {
      hide Cache.Valid;
      var log, home := r.start + tail + 1, block[tail];
      var lbuf, dbuf;
      if !recovering { cache.Located(home); }
      ok, lbuf, dbuf := CopyHome(log, home);
      if !ok { return; }
      CopiedReleased(old(cache.refs), log, home, old(cache.disk[log]));
      if !recovering {
        cache.Located(home);
        cache.Bunpin(dbuf);
      }
      cache.Located(log);
      cache.Brelse(lbuf);
      cache.Located(home);
      cache.Brelse(dbuf);
    }

    /** The header bytes write_head stores: the count and the block numbers over the old block. */
    method FillHead(data: Block) returns (h: Block)
      requires n <= |block| && n < |data|
      ensures h == HeadBlock(data, block[..n])
    {
      h := data[0 := n];
      for i := 0 to n
        invariant h == [n] + block[..i] + data[1 + i..]
      {
        h := h[1 + i := block[i]];
      }
    }

    /** write_head */
    method WriteHead() returns (ok: bool)
      requires cache.Valid() && n <= |block| && r.start < |cache.disk| && n < |cache.disk[r.start]|
      requires r.start !in cache.refs
      modifies cache
      ensures cache.Valid()
      ensures ok <==> |old(cache.refs)| < cache.nbuf
      ensures ok ==> && cache.refs == old(cache.refs)
                     && cache.disk == Headed(old(cache.disk), r, block[..n])
                     && cache.trail == old(cache.trail) + [cache.disk]
    {
      hide Cache.Valid;
      var buf;
      ok, buf := cache.Bread(r.start);
      if !ok { return; }
      cache.Located(r.start);
      var h := FillHead(cache.bufs[buf].data);
      cache.Fill(buf, h);
      cache.Located(r.start);
      cache.Bwrite(buf);
      cache.Brelse(buf);
      assert cache.refs == old(cache.refs);
    }

    /** read_head */
    method ReadHead() returns (ok: bool)
      requires cache.Valid() && Formatted(cache.disk, r) && r.start !in cache.refs && |block| == r.cap
      modifies cache, this`n, this`block
      ensures cache.Valid() && cache.disk == old(cache.disk) && cache.trail == old(cache.trail)
      ensures ok <==> |old(cache.refs)| < cache.nbuf
      ensures ok ==> cache.refs == old(cache.refs) && |block| == r.cap
      ensures ok ==> n <= r.cap && block[..n] == HeadOf(cache.disk[r.start])
    {
      hide Cache.Valid;
      var buf;
      ok, buf := cache.Bread(r.start);
      if !ok { return; }
      cache.Located(r.start);
      var data := cache.bufs[buf].data;
      n := data[0];
      for i := 0 to n
        invariant cache.Valid() && n == data[0] && |block| == r.cap && block[..i] == data[1..1 + i]
        invariant unchanged(cache`trail) && unchanged(cache`disk)
        invariant cache.refs == Acquired(old(cache.refs), old(cache.disk), r.start) && buf < |cache.bufs|
        invariant r.start in cache.slot && cache.slot[r.start] == buf
      {
        ghost var was := block;
        block := block[i := data[1 + i]];
        assert block[..i + 1] == was[..i] + [data[1 + i]] && data[1..2 + i] == data[1..1 + i] + [data[1 + i]];
      }
      cache.Located(r.start);
      cache.Brelse(buf);
      assert cache.refs == old(cache.refs);
    }

    /** write_log: with a spare buffer, every log block gets the latest bytes of its block. */
    method WriteLog() returns (ok: bool, ghost t: seq<Disk>)
      requires cache.Valid() && 0 < n <= |block| && Ready(cache.disk, r, cache.refs, block[..n])
      modifies cache
      ensures cache.Valid()
      ensures ok <==> |old(cache.refs)| < cache.nbuf
      ensures ok ==> && cache.refs == old(cache.refs) && cache.trail == old(cache.trail) + t
                     && WroteLog(old(cache.disk), r, old(cache.refs), block[..n], n, cache.disk, t)
    {
      hide Cache.Valid, WroteLog, Ready;
      ghost var d, refs, dst := cache.disk, cache.refs, block[..n];
      ok, t := true, [];
      LogNone(d, r, refs, dst);
      for tail := 0 to n
        invariant cache.Valid() && ok
        invariant tail > 0 ==> |cache.refs| < cache.nbuf
        invariant cache.refs == refs && |cache.disk| == |d| && cache.trail == old(cache.trail) + t
        invariant WroteLog(d, r, refs, dst, tail, cache.disk, t)
      {
        ghost var before := t;
        ok, t := WriteLogStep(tail, d, t);
        if !ok { return; }
        Snoc(old(cache.trail), before, cache.disk);
      }
    }

    method WriteLogStep(tail: nat, ghost d: Disk, ghost t: seq<Disk>) returns (ok: bool, ghost t': seq<Disk>)
      requires cache.Valid() && tail < n <= |block| && Ready(d, r, cache.refs, block[..n])
      requires WroteLog(d, r, cache.refs, block[..n], tail, cache.disk, t) && |cache.disk| == |d|
      modifies cache
      ensures cache.Valid()
      ensures ok <==> |old(cache.refs)| < cache.nbuf
      ensures ok ==> && cache.refs == old(cache.refs) && |cache.disk| == |d|
                     && t' == t + [cache.disk] && cache.trail == old(cache.trail) + [cache.disk]
                     && WroteLog(d, r, cache.refs, block[..n], tail + 1, cache.disk, t')
    {
      hide Cache.Valid, WroteLog, Ready;
      t' := t;
      ReadyAt(d, r, cache.refs, block[..n], tail);
      LogOneMore(d, r, cache.refs, block[..n], tail, cache.disk, t);
      ok := WriteLogBlock(tail);
      if !ok { return; }
      t' := t + [cache.disk];
    }

    /** install_trans of a commit: the logged blocks go home and lose exactly their pin. */
    method Install() returns (ok: bool)
      requires cache.Valid() && n <= |block| && Sound(cache.disk, r, cache.refs, block[..n])
      requires Pins(cache.refs, held, block[..n]) && |cache.refs| < cache.nbuf
      modifies cache
      ensures cache.Valid() && ok && |cache.refs| < cache.nbuf
      ensures cache.disk == Installed(old(cache.disk), r, block[..n], n)
      ensures cache.trail == old(cache.trail) + InstallTrail(old(cache.disk), r, block[..n], n)
      ensures Pins(cache.refs, held, [])
      ensures forall bn :: bn in cache.refs ==> bn in old(cache.refs) && cache.refs[bn].data == old(cache.refs)[bn].data
    {
      hide Cache.Valid, Pins, Targets;
      ok := true;
      ghost var d, dst := cache.disk, block[..n];
      assert dst[0..] == dst && dst[n..] == [];
      for tail := 0 to n
        invariant cache.Valid() && ok && |cache.refs| < cache.nbuf
        invariant cache.disk == Installed(d, r, dst, tail)
        invariant cache.trail == old(cache.trail) + InstallTrail(d, r, dst, tail)
        invariant Pins(cache.refs, held, dst[tail..])
        invariant forall bn :: bn in cache.refs ==>
                                 bn in old(cache.refs) && cache.refs[bn].data == old(cache.refs)[bn].data
      {
        InstallStep(d, r, dst, tail);
        PinnedHead(cache.refs, held, dst[tail..]);
        Unpinned(cache.refs, held, dst[tail], dst[tail + 1..]);
        ReleasedSize(cache.refs, dst[tail]);
        ok := InstallBlock(tail, false);
      }
    }

    /** The first half of commit: write_log, then the header write that commits. */
    method Seal() returns (ok: bool, ghost t: seq<Disk>)
      requires cache.Valid() && 0 < n <= |block| && Ready(cache.disk, r, cache.refs, block[..n])
      modifies cache
      ensures cache.Valid()
      ensures ok <==> |old(cache.refs)| < cache.nbuf
      ensures ok ==> && cache.refs == old(cache.refs) && cache.trail == old(cache.trail) + t
                     && WroteSeal(old(cache.disk), r, old(cache.refs), block[..n], cache.disk, t)
    {
      ghost var d, dst := cache.disk, block[..n];
      hide Cache.Valid, WroteLog, WroteSeal;
      ok, t := WriteLog();
      if !ok { return; }
      SealOneMore(d, r, cache.refs, dst, cache.disk, t);
      ok := WriteHead();
      t := t + [cache.disk];
    }

    /** The second half of commit: install_trans, then an empty header. */
    method Erase() returns (ghost t: seq<Disk>)
      requires cache.Valid() && n <= |block| && Sound(cache.disk, r, cache.refs, block[..n])
      requires Pins(cache.refs, held, block[..n]) && |cache.refs| < cache.nbuf
      modifies this`n, cache
      ensures cache.Valid() && n == 0
      ensures cache.trail == old(cache.trail) + t
      ensures WroteErase(old(cache.disk), r, block[..old(n)], cache.disk, t)
      ensures Pins(cache.refs, held, [])
      ensures forall bn :: bn in cache.refs ==> bn in old(cache.refs) && cache.refs[bn].data == old(cache.refs)[bn].data
    {
      hide Cache.Valid, Pins;
      InstalledAt(cache.disk, r, block[..n], n);
      var ok := Install();
      n := 0;
      assert block[..n] == [];
      ok := WriteHead();
      t := InstallTrail(old(cache.disk), r, block[..old(n)], old(n)) + [cache.disk];
    }

    /**
     commit: with a spare buffer, exactly the writes of CommitTrail; afterwards the pins are gone,
     cache and home blocks agree, and nobody sees a home block change.
     */
    method Commit() returns (ok: bool)
      requires Valid() && loose == {}
      modifies this`n, cache
      ensures ok <==> old(n) == 0 || |old(cache.refs)| < cache.nbuf
      ensures ok ==> Valid() && n == 0
      ensures ok ==> CommittedBy(old(cache.disk), r, old(cache.refs), old(block[..n]),
                                 cache.disk, cache.refs, old(cache.trail), cache.trail)
    {
      hide Cache.Valid, Pins, WroteSeal, WroteErase, Ready, Sound, CommittedBy, Agree, Targets, Formatted;
      ghost var d, refs, dst := cache.disk, cache.refs, block[..n];
      Quiet();
      if n == 0 {
        NothingToCommit(d, r, refs, cache.trail);
        return true;
      }
      ghost var t, t';
      ok, t := Seal();
      if !ok { return; }
      SealedSound(d, r, refs, dst, cache.disk, t);
      ghost var c := cache.disk;
      t' := Erase();
      CommitDone(d, r, refs, dst, c, t, cache.disk, t', cache.refs, old(cache.trail));
      assert block[..n] == [] && Blocks([]) + loose == {};
    }

    // ----- what file system operations call

    /** bread by a file system operation. */
    method Read(bn: nat) returns (ok: bool, b: nat)
      requires Valid() && IsHome(r, bn) && bn < |cache.disk|
      modifies cache, this`held
      ensures ok <==> bn in old(cache.refs) || |old(cache.refs)| < cache.nbuf
      ensures Valid() && cache.disk == old(cache.disk) && cache.trail == old(cache.trail)
      ensures ok ==> && held == old(held) + multiset{bn} && cache.refs == Acquired(old(cache.refs), cache.disk, bn)
                     && bn in cache.slot && cache.slot[bn] == b && b < |cache.bufs|
                     && cache.bufs[b].data == View(old(cache.refs), old(cache.disk), bn)
      ensures !ok ==> held == old(held) && cache.refs == old(cache.refs)
    {
      hide Cache.Valid, Pins, Agree, Formatted, Targets, IsHome;
      AcquireKeeps(cache.refs, cache.disk, held, block[..n], Blocks(block[..n]) + loose, bn);
      ok, b := cache.Bread(bn);
      if ok {
        held := held + multiset{bn};
        cache.Located(bn);
      }
    }

    /** A file system operation changes the bytes of a buffer it holds. */
    method Modify(bn: nat, b: nat, data: Block)
      requires Valid() && bn in held && bn in cache.slot && cache.slot[bn] == b
      modifies cache, this`loose
      ensures Valid() && cache.disk == old(cache.disk) && cache.trail == old(cache.trail)
      ensures loose == old(loose) + {bn} && cache.slot == old(cache.slot)
      ensures bn in old(cache.refs) && cache.refs == old(cache.refs)[bn := old(cache.refs)[bn].(data := data)]
    {
      hide Cache.Valid;
      cache.Located(bn);
      cache.Fill(b, data);
      loose := loose + {bn};
      assert Agree(cache.refs, cache.disk, Blocks(block[..n]) + loose);
    }

    /** The absorption loop of log_write: the position of the block in the log, or n. */
    method FindLogged(bn: nat) returns (i: nat)
      requires n <= |block|
      ensures i <= n && bn !in block[..i] && (i < n ==> block[i] == bn)
    {
      i := 0;
      while i < n && block[i] != bn
        invariant 0 <= i <= n && bn !in block[..i]
      {
        i := i + 1;
      }
    }

    /** log_write: an append pins the block; a block already logged is absorbed; !ok is one of its panics. */
    method LogWrite(bn: nat, b: nat) returns (ok: bool)
      requires Valid() && bn in held && bn in cache.slot && cache.slot[bn] == b
      modifies cache, this`n, this`block, this`loose
      ensures ok <==> !LogSpace.WritePanics(LogSpace.Params(r.cap, 0), old(n), outstanding)
      ensures !ok ==> n == old(n) && block == old(block) && loose == old(loose)
      ensures Valid() && cache.disk == old(cache.disk) && cache.trail == old(cache.trail)
      ensures cache.slot == old(cache.slot)
      ensures ok ==> loose == old(loose) - {bn}
      ensures ok ==> block[..n] == if bn in old(block[..n]) then old(block[..n]) else old(block[..n]) + [bn]
      ensures ok ==> n == old(n) + if bn in old(block[..n]) then 0 else 1
      ensures ok ==> bn in old(cache.refs) && cache.refs[bn].data == old(cache.refs)[bn].data
      ensures ok ==> cache.refs == old(cache.refs)[bn := Ref(old(cache.refs)[bn].count + n - old(n),
                                                             old(cache.refs)[bn].data)]
      ensures !ok ==> cache.refs == old(cache.refs)
    {
      hide Cache.Valid, Pins, Agree, Targets, Formatted;
      if n >= r.cap || outstanding < 1 { return false; }
      var i := FindLogged(bn);
      if i == n {
        Append(bn, b);
      } else {
        Absorb(bn, i);
      }
      ok := true;
    }

    /** The end of log_write when the block was already in the log. */
    method Absorb(bn: nat, i: nat)
      requires Valid() && bn in held && i < n && block[i] == bn
      modifies this`block, this`loose
      ensures Valid() && loose == old(loose) - {bn} && block == old(block)
      ensures bn in block[..n] && bn in cache.refs && cache.refs == cache.refs[bn := cache.refs[bn]]
    {
      hide Cache.Valid, Pins, Targets, Formatted;
      assert block[..n][i] == bn;
      HeldRef(cache.refs, held, block[..n], bn);
      block := block[i := bn];
      loose := loose - {bn};
      assert block == old(block);
      assert Blocks(block[..n]) + loose == Blocks(block[..n]) + old(loose) by {
        assert bn in Blocks(old(block[..n]));
      }
    }

    /** The end of log_write when the block was not in the log. */
    method Append(bn: nat, b: nat)
      requires Valid() && bn in held && bn in cache.slot && cache.slot[bn] == b
      requires n < r.cap && bn !in block[..n]
      modifies cache, this`n, this`block, this`loose
      ensures Valid() && cache.disk == old(cache.disk) && cache.trail == old(cache.trail)
      ensures cache.slot == old(cache.slot)
      ensures loose == old(loose) - {bn} && n == old(n) + 1 && block[..n] == old(block[..n]) + [bn]
      ensures bn in old(cache.refs)
      ensures cache.refs == old(cache.refs)[bn := Ref(old(cache.refs)[bn].count + 1, old(cache.refs)[bn].data)]
    {
      hide Cache.Valid, Pins, Agree, Targets, Formatted;
      ghost var dst := block[..n];
      HeldRef(cache.refs, held, dst, bn);
      cache.Located(bn);
      Appended(cache.refs, cache.disk, held, r, dst, bn, loose);
      block := block[n := bn];
      cache.Bpin(b);
      n := n + 1;
      loose := loose - {bn};
      assert block[..n] == dst + [bn];
    }

    /** brelse by a file system operation whose changes to the block have been logged. */
    method Release(bn: nat, b: nat)
      requires Valid() && bn in held && bn !in loose && bn in cache.slot && cache.slot[bn] == b
      modifies cache, this`held
      ensures Valid() && cache.disk == old(cache.disk) && cache.trail == old(cache.trail)
      ensures held == old(held) - multiset{bn}
      ensures bn in old(cache.refs) && cache.refs == Released(old(cache.refs), bn)
      ensures forall x: nat :: x < |cache.disk| ==>
                                 View(cache.refs, cache.disk, x) == View(old(cache.refs), cache.disk, x)
    {
      hide Cache.Valid, Pins, Agree, Targets, Formatted, Released;
      ReleasedOk(cache.refs, cache.disk, held, r, block[..n], bn, loose);
      cache.Located(bn);
      cache.Brelse(b);
      held := held - multiset{bn};
    }

    /** bread, a change, log_write and brelse of a block nobody holds: it ends up in the log and pinned. */
    method Update(bn: nat, data: Block) returns (ok: bool)
      requires Valid() && IsHome(r, bn) && bn < |cache.disk| && bn !in cache.refs
      modifies cache, this`held, this`n, this`block, this`loose
      ensures ok <==> |old(cache.refs)| < cache.nbuf && old(n) < r.cap && outstanding >= 1
      ensures ok ==> Valid() && held == old(held) && loose == old(loose) && cache.disk == old(cache.disk)
      ensures ok ==> n == old(n) + 1 && cache.refs == old(cache.refs)[bn := Ref(1, data)]
    {
      hide Log.Valid, Released, Acquired, IsHome;
      NotHeld(bn);
      UpdatedRefs(cache.refs, cache.disk, bn, data);
      var b;
      ok, b := Read(bn);
      if !ok { return; }
      Modify(bn, b, data);
      ok := LogWrite(bn, b);
      if !ok { return; }
      Release(bn, b);
    }

    /**
     One pass through the loop of begin_op: admitted, or to sleep until the next wakeup. Refused exactly while a commit
     is under way, or if the operations with the new one, appending up to `max` blocks each, could overrun the log.
     */
    method BeginOp(max: nat) returns (admitted: bool)
      requires Valid()
      modifies this`outstanding
      ensures Valid()
      ensures admitted <==> && !committing
                            && !LogSpace.CanBurst(LogSpace.Params(r.cap, max),
                                                  LogSpace.Fresh(block[..n], old(outstanding) + 1, max))
      ensures outstanding == old(outstanding) + if admitted then 1 else 0
    {
      hide Cache.Valid, LogSpace.CanBurst, LogSpace.Fresh;
      LogSpace.AdmitsExactly(LogSpace.Params(r.cap, max), block[..n], outstanding);
      admitted := !committing && n + (outstanding + 1) * max <= r.cap;
      if admitted { outstanding := outstanding + 1; }
    }

    /** end_op: the last operation out commits; !ok is its panic, or that of a cache without a spare buffer. */
    method EndOp() returns (ok: bool)
      requires Valid() && outstanding >= 1
      requires outstanding == 1 ==> loose == {}
      modifies this, cache
      ensures ok <==> !old(committing) && (old(outstanding) == 1 && old(n) > 0 ==> |old(cache.refs)| < cache.nbuf)
      ensures ok ==> Valid() && outstanding == old(outstanding) - 1 && !committing
      ensures ok ==> held == old(held) && loose == old(loose)
      ensures ok && outstanding == 0 ==>
        n == 0 && CommittedBy(old(cache.disk), r, old(cache.refs), old(block[..n]),
                              cache.disk, cache.refs, old(cache.trail), cache.trail)
      ensures ok && outstanding > 0 ==> n == old(n) && block == old(block) && unchanged(cache)
    {
      hide Cache.Valid, CommittedBy, Pins, Agree, Targets, Formatted;
      outstanding := outstanding - 1;
      if committing { return false; }
      ok := true;
      if outstanding == 0 {
        committing := true;
        ok := Commit();
        committing := false;
      }
    }

    lemma NotHeld(bn: nat)
      requires Valid() && bn !in cache.refs
      ensures bn !in held && bn !in loose && n <= |block| && bn !in block[..n]
    {
    }

    lemma Quiet()
      requires Valid() && loose == {}
      ensures Ready(cache.disk, r, cache.refs, block[..n])
    {
      AllPinned(cache.refs, held, block[..n]);
      assert Blocks(block[..n]) + loose == Blocks(block[..n]);
    }
  }

  /** A reference acquired, the bytes changed, a pin, the reference released. */
  lemma UpdatedRefs(refs: map<nat, Ref>, disk: Disk, bn: nat, data: Block)
    requires bn < |disk| && bn !in refs
    ensures var a := Acquired(refs, disk, bn);
            && bn in a && a[bn].count == 1
            && var m := a[bn := a[bn].(data := data)];
            var p := m[bn := Ref(2, data)];
            Released(p, bn) == refs[bn := Ref(1, data)]
  {
  }

  lemma HeldRef(refs: map<nat, Ref>, held: multiset<nat>, dst: seq<nat>, bn: nat)
    requires Pins(refs, held, dst) && bn in held
    ensures bn in refs && refs[bn].count == held[bn] + if bn in dst then 1 else 0
  {
  }

  lemma ReleasedOk(refs: map<nat, Ref>, disk: Disk, held: multiset<nat>, r: Region, dst: seq<nat>, bn: nat,
                   loose: set<nat>)
    requires Pins(refs, held, dst) && bn in held && bn !in loose
    requires Agree(refs, disk, Blocks(dst) + loose)
    requires forall x :: x in refs ==> IsHome(r, x)
    requires forall x :: x in loose ==> x in held
    ensures bn in refs && (refs[bn].count == 1 ==> bn < |disk| && refs[bn].data == disk[bn])
    ensures Pins(Released(refs, bn), held - multiset{bn}, dst)
    ensures Agree(Released(refs, bn), disk, Blocks(dst) + loose)
    ensures forall x :: x in Released(refs, bn) ==> IsHome(r, x)
    ensures forall x :: x in loose ==> x in held - multiset{bn}
    ensures forall x: nat :: x < |disk| ==> View(Released(refs, bn), disk, x) == View(refs, disk, x)
  {
    HeldRef(refs, held, dst, bn);
    if bn !in dst { assert bn !in Blocks(dst) + loose; }
  }

  lemma Appended(refs: map<nat, Ref>, disk: Disk, held: multiset<nat>, r: Region, dst: seq<nat>, bn: nat,
                 loose: set<nat>)
    requires Pins(refs, held, dst) && bn in held && bn !in dst && bn < |disk| && IsHome(r, bn)
    requires Targets(r, |disk|, dst) && |dst| < r.cap && Agree(refs, disk, Blocks(dst) + loose)
    ensures bn in refs
    ensures Pins(Acquired(refs, disk, bn), held, dst + [bn])
    ensures Targets(r, |disk|, dst + [bn])
    ensures Agree(Acquired(refs, disk, bn), disk, Blocks(dst + [bn]) + (loose - {bn}))
  {
    assert forall x :: x in dst + [bn] <==> x in dst || x == bn;
    var all := dst + [bn];
    assert all[|dst|] == bn;
    assert Blocks(all) == Blocks(dst) + {bn} by {
      forall x | x in Blocks(dst) ensures x in Blocks(all) {
        var i :| 0 <= i < |dst| && dst[i] == x;
        assert all[i] == x;
      }
    }
  }

  lemma RecoverPlan(d: Disk, r: Region)
    requires Image(d, r)
    ensures var dst := HeadOf(d[r.start]);
            var p := Installed(d, r, dst, |dst|);
            && Formatted(p, r)
            && RecoverTrail(d, r) == InstallTrail(d, r, dst, |dst|) + [Headed(p, r, [])]
            && Formatted(Headed(p, r, []), r) && Headed(p, r, [])[r.start][0] == 0
  {
    var dst := HeadOf(d[r.start]);
    InstalledAt(d, r, dst, |dst|);
    InstallTrailAt(d, r, dst, |dst|);
    HeadRoundTrip(Installed(d, r, dst, |dst|)[r.start], []);
  }

  // ----- the writes of commit, phase by phase

  ghost predicate WroteLog(d: Disk, r: Region, refs: map<nat, Ref>, dst: seq<nat>, k: nat, e: Disk, t: seq<Disk>)
  {
    Ready(d, r, refs, dst) && k <= |dst| &&
    var tx := Latest(refs, d, dst);
    e == Logged(d, r, tx.vals, k) && (dst != [] ==> t == CommitTrail(d, r, tx)[..k])
  }

  ghost predicate WroteSeal(d: Disk, r: Region, refs: map<nat, Ref>, dst: seq<nat>, e: Disk, t: seq<Disk>)
  {
    Ready(d, r, refs, dst) && dst != [] &&
    var tx := Latest(refs, d, dst);
    e == Sealed(d, r, tx) && t == CommitTrail(d, r, tx)[..|dst|] + [e]
  }

  ghost predicate WroteErase(c: Disk, r: Region, dst: seq<nat>, e: Disk, t: seq<Disk>)
  {
    Formatted(c, r) && Targets(r, |c|, dst) &&
    var p := Installed(c, r, dst, |dst|);
    InstalledAt(c, r, dst, |dst|);
    e == Headed(p, r, []) && t == InstallTrail(c, r, dst, |dst|) + [e]
  }

  /**
   What commit does: the disk goes through CommitTrail, the references that remain agree with it,
   and every home block reads as before.
   */
  ghost predicate CommittedBy(d: Disk, r: Region, refs: map<nat, Ref>, dst: seq<nat>,
                              e: Disk, refs': map<nat, Ref>, trail: seq<Disk>, trail': seq<Disk>)
  {
    Ready(d, r, refs, dst) &&
    var tx := Latest(refs, d, dst);
    && e == Committed(d, r, tx) && |e| == |d|
    && trail' == trail + CommitTrail(d, r, tx)
    && Settled(e, r, After(d, tx))
    && Agree(refs', e, {})
    && forall b :: 0 <= b < |d| && IsHome(r, b) ==> View(refs', e, b) == View(refs, d, b)
  }

  lemma NothingToCommit(d: Disk, r: Region, refs: map<nat, Ref>, trail: seq<Disk>)
    requires Ready(d, r, refs, [])
    ensures CommittedBy(d, r, refs, [], d, refs, trail, trail)
  {
    assert trail + [] == trail;
  }

  lemma LogNone(d: Disk, r: Region, refs: map<nat, Ref>, dst: seq<nat>)
    requires Ready(d, r, refs, dst)
    ensures WroteLog(d, r, refs, dst, 0, d, [])
  {
  }

  lemma ReadyAt(d: Disk, r: Region, refs: map<nat, Ref>, dst: seq<nat>, k: nat)
    requires Ready(d, r, refs, dst) && k < |dst|
    ensures dst[k] in refs && r.start + k + 1 < |d| && r.start + k + 1 !in refs
  {
    assert !IsHome(r, r.start + k + 1);
  }

  lemma LogOneMore(d: Disk, r: Region, refs: map<nat, Ref>, dst: seq<nat>, k: nat, e: Disk, t: seq<Disk>)
    requires Ready(d, r, refs, dst) && k < |dst| && WroteLog(d, r, refs, dst, k, e, t)
    ensures |e| == |d|
    ensures var e' := e[r.start + k + 1 := refs[dst[k]].data];
            WroteLog(d, r, refs, dst, k + 1, e', t + [e'])
  {
    var tx := Latest(refs, d, dst);
    var e' := e[r.start + k + 1 := refs[dst[k]].data];
    assert tx.vals[k] == View(refs, d, dst[k]) == refs[dst[k]].data;
    hide Latest;
    TrailStep(d, r, tx, k);
    hide CommitTrail, CommitStep;
  }

  /** The first writes of a commit copy the blocks to the log. */
  lemma TrailStep(d: Disk, r: Region, tx: Tx, k: nat)
    requires Formatted(d, r) && TxOk(r, |d|, tx) && k < |tx.vals| == |tx.dst|
    ensures k + 1 <= |CommitTrail(d, r, tx)|
    ensures CommitTrail(d, r, tx)[..k + 1] == CommitTrail(d, r, tx)[..k] + [Logged(d, r, tx.vals, k + 1)]
  {
    assert CommitTrail(d, r, tx)[k] == CommitStep(d, r, tx, k + 1);
  }

  lemma SealOneMore(d: Disk, r: Region, refs: map<nat, Ref>, dst: seq<nat>, e: Disk, t: seq<Disk>)
    requires Ready(d, r, refs, dst) && dst != [] && WroteLog(d, r, refs, dst, |dst|, e, t)
    ensures r.start < |e| && |dst| < |e[r.start]|
    ensures WroteSeal(d, r, refs, dst, Headed(e, r, dst), t + [Headed(e, r, dst)])
  {
    var tx := Latest(refs, d, dst);
    LoggedAt(d, r, tx.vals, |tx.vals|);
  }

  lemma SealedSound(d: Disk, r: Region, refs: map<nat, Ref>, dst: seq<nat>, e: Disk, t: seq<Disk>)
    requires Ready(d, r, refs, dst) && dst != [] && WroteSeal(d, r, refs, dst, e, t)
    ensures |e| == |d| && Sound(e, r, refs, dst)
  {
    var tx := Latest(refs, d, dst);
    SealedHead(d, r, tx);
    assert forall i :: 0 <= i < |dst| ==> tx.vals[i] == View(refs, d, dst[i]);
  }

  lemma CommitDone(d: Disk, r: Region, refs: map<nat, Ref>, dst: seq<nat>, c: Disk, t: seq<Disk>,
                   e: Disk, t': seq<Disk>, refs': map<nat, Ref>, trail: seq<Disk>)
    requires Ready(d, r, refs, dst) && dst != []
    requires WroteSeal(d, r, refs, dst, c, t)
    requires Formatted(c, r) && Targets(r, |c|, dst) && WroteErase(c, r, dst, e, t')
    requires forall bn :: bn in refs' ==> bn in refs && refs'[bn].data == refs[bn].data
    ensures CommittedBy(d, r, refs, dst, e, refs', trail, trail + t + t')
    ensures Formatted(e, r) && |e| == |d| && e[r.start][0] == 0 && Targets(r, |e|, [])
    ensures Agree(refs', e, {}) && Blocks([]) == {}
    ensures forall bn :: bn in refs' ==> IsHome(r, bn)
  {
    var tx := Latest(refs, d, dst);
    CommitPlan(d, r, tx);
    CommittedSettles(d, r, d, tx);
    CommittedAgrees(d, r, refs, dst, refs');
    Regroup(trail, CommitTrail(d, r, tx)[..|dst|], c, InstallTrail(c, r, dst, |dst|), e);
    assert trail + t + t' == trail + CommitTrail(d, r, tx);
  }

  /** The log blocks hold the bytes of the logged blocks. */
  ghost predicate Sound(c: Disk, r: Region, refs: map<nat, Ref>, dst: seq<nat>) {
    && Formatted(c, r) && Targets(r, |c|, dst)
    && (forall i :: 0 <= i < |dst| ==> dst[i] in refs && refs[dst[i]].data == c[r.start + 1 + i])
    && (forall bn :: bn in refs ==> IsHome(r, bn))
  }

  /** The logged blocks are referenced, the other references agree with the disk, and the log is empty. */
  ghost predicate Ready(d: Disk, r: Region, refs: map<nat, Ref>, dst: seq<nat>) {
    && Formatted(d, r) && d[r.start][0] == 0 && Targets(r, |d|, dst)
    && (forall i :: 0 <= i < |dst| ==> dst[i] in refs)
    && (forall bn :: bn in refs ==> IsHome(r, bn))
    && Agree(refs, d, Blocks(dst))
  }

  /** After a commit the references that remain agree with the disk and no reader sees a difference. */
  lemma CommittedAgrees(d: Disk, r: Region, refs: map<nat, Ref>, dst: seq<nat>, refs': map<nat, Ref>)
    requires Ready(d, r, refs, dst)
    requires forall bn :: bn in refs' ==> bn in refs && refs'[bn].data == refs[bn].data
    ensures var e := Committed(d, r, Latest(refs, d, dst));
            && Formatted(e, r) && |e| == |d| && e[r.start][0] == 0 && Targets(r, |e|, [])
            && Blocks([]) == {} && Agree(refs', e, {})
            && forall b :: 0 <= b < |d| && IsHome(r, b) ==> View(refs', e, b) == View(refs, d, b)
  {
    var tx := Latest(refs, d, dst);
    CommittedSettles(d, r, d, tx);
    ApplyAt(d, tx, |dst|);
    assert dst[..|dst|] == dst;
    var e := Committed(d, r, tx);
    forall b | 0 <= b < |d| && IsHome(r, b) ensures e[b] == View(refs, d, b) {
      if b in dst {
        var i :| 0 <= i < |dst| && dst[i] == b;
      } else if b in refs {
        assert b !in Blocks(dst);
      }
    }
    forall bn | bn in refs' ensures bn < |e| && refs'[bn].data == e[bn] {
      if bn in Blocks(dst) {
        var i :| 0 <= i < |dst| && dst[i] == bn;
      }
    }
  }

  lemma AllPinned(refs: map<nat, Ref>, held: multiset<nat>, dst: seq<nat>)
    requires Pins(refs, held, dst)
    ensures forall i :: 0 <= i < |dst| ==> dst[i] in refs
  {
    forall i | 0 <= i < |dst| ensures dst[i] in refs { assert dst[i] in dst; }
  }

  /** The writes of commit in the order the code makes them. */
  lemma CommitPlan(d: Disk, r: Region, tx: Tx)
    requires Formatted(d, r) && TxOk(r, |d|, tx) && tx.dst != []
    ensures Formatted(Sealed(d, r, tx), r)
    ensures |CommitTrail(d, r, tx)| == 2 * |tx.dst| + 2
    ensures CommitTrail(d, r, tx) == CommitTrail(d, r, tx)[..|tx.dst|] + [Sealed(d, r, tx)]
              + InstallTrail(Sealed(d, r, tx), r, tx.dst, |tx.dst|) + [Committed(d, r, tx)]
    ensures Formatted(Installed(Sealed(d, r, tx), r, tx.dst, |tx.dst|), r)
    ensures Committed(d, r, tx) == Headed(Installed(Sealed(d, r, tx), r, tx.dst, |tx.dst|), r, [])
  {
    var n, c, t := |tx.dst|, Sealed(d, r, tx), CommitTrail(d, r, tx);
    SealedHead(d, r, tx);
    InstalledAt(c, r, tx.dst, n);
    hide CommitTrail;
    SplitTrail(t, n, CommitMiddle(d, r, tx), c);
  }

  ghost function CommitMiddle(d: Disk, r: Region, tx: Tx): (m: seq<Disk>)
    requires Formatted(d, r) && TxOk(r, |d|, tx) && tx.dst != []
    ensures |CommitTrail(d, r, tx)| == 2 * |tx.dst| + 2 && |m| == |tx.dst|
    ensures m == InstallTrail(Sealed(d, r, tx), r, tx.dst, |tx.dst|)
    ensures forall i :: 0 <= i < |m| ==> CommitTrail(d, r, tx)[|tx.dst| + 1 + i] == m[i]
    ensures CommitTrail(d, r, tx)[|tx.dst|] == Sealed(d, r, tx)
    ensures CommitTrail(d, r, tx)[2 * |tx.dst| + 1] == Committed(d, r, tx)
  {
    InstallTrailAt(Sealed(d, r, tx), r, tx.dst, |tx.dst|);
    InstallTrail(Sealed(d, r, tx), r, tx.dst, |tx.dst|)
  }

  lemma Snoc(a: seq<Disk>, b: seq<Disk>, c: Disk)
    ensures a + b + [c] == a + (b + [c])
  {
  }

  lemma Regroup(t: seq<Disk>, a: seq<Disk>, c: Disk, m: seq<Disk>, e: Disk)
    ensures t + a + [c] + m + [e] == t + (a + [c] + m + [e])
  {
  }

  lemma SplitTrail(t: seq<Disk>, n: nat, m: seq<Disk>, c: Disk)
    requires |t| == n + 2 + |m| && t[n] == c
    requires forall i :: 0 <= i < |m| ==> t[n + 1 + i] == m[i]
    ensures t == t[..n] + [c] + m + [t[|t| - 1]]
  {
  }

  lemma {:induction false} InstallTrailAt(d: Disk, r: Region, dst: seq<nat>, k: nat)
    requires k <= |dst| && Targets(r, |d|, dst) && r.start + r.cap < |d|
    ensures |InstallTrail(d, r, dst, k)| == k
    ensures forall i :: 0 <= i < k ==> InstallTrail(d, r, dst, k)[i] == Installed(d, r, dst, i + 1)
  {
    if k > 0 { InstallTrailAt(d, r, dst, k - 1); }
  }

  lemma InstallStep(d: Disk, r: Region, dst: seq<nat>, k: nat)
    requires k < |dst| && Targets(r, |d|, dst) && r.start + r.cap < |d|
    ensures Installed(d, r, dst, k)[r.start + k + 1] == d[r.start + k + 1]
    ensures dst[k] < |d| && IsHome(r, dst[k]) && r.start + k + 1 <= r.start + r.cap
    ensures dst[k..] == [dst[k]] + dst[k + 1..] && dst[k] !in dst[k + 1..]
  {
    InstalledAt(d, r, dst, k);
  }

  lemma PinnedHead(refs: map<nat, Ref>, held: multiset<nat>, dst: seq<nat>)
    requires Pins(refs, held, dst) && dst != []
    ensures dst[0] in refs
  {
    assert dst[0] in dst;
  }

  lemma ReleasedSize(refs: map<nat, Ref>, bn: nat)
    requires bn in refs
    ensures |Released(refs, bn)| <= |refs|
  {
    if refs[bn].count > 1 {
      assert Released(refs, bn).Keys == refs.Keys;
    } else {
      assert Released(refs, bn).Keys == refs.Keys - {bn};
    }
  }

  lemma Unpinned(refs: map<nat, Ref>, held: multiset<nat>, bn: nat, rest: seq<nat>)
    requires Pins(refs, held, [bn] + rest) && bn !in rest && bn in refs
    ensures Pins(Released(refs, bn), held, rest)
  {
    assert forall x :: x in [bn] + rest <==> x == bn || x in rest;
  }

  /**
   `ops` operations on a log that was just opened each fill their share of it with blocks of their own. The last
   end_op commits, and finds no buffer for a log block.
   */
  method NoSpareBuffer(log: Log, ops: nat, max: nat) returns (ok: bool)
    requires log.Valid() && log.n == 0 && log.outstanding == 0 && !log.committing && log.loose == {}
    requires log.cache.refs == map[] && log.cache.nbuf == log.r.cap == ops * max && ops > 0 && max > 0
    requires log.r.start + 2 * log.r.cap < |log.cache.disk|
    modifies log, log.cache
    ensures !ok
  {
    hide Log.Valid, CommittedBy, LogSpace.CanBurst, LogSpace.Fresh;
    for i := 0 to ops
      invariant log.Valid() && log.n == 0 && log.outstanding == i && !log.committing && log.loose == {}
      invariant unchanged(log.cache)
    {
      Share(i + 1, ops, max);
      LogSpace.AdmitsExactly(LogSpace.Params(log.r.cap, max), log.block[..log.n], i);
      ok := log.BeginOp(max);
    }
    FillLog(log);
    for i := 1 to ops
      invariant log.Valid() && log.n == log.r.cap && log.outstanding == ops - i + 1 && !log.committing
      invariant log.loose == {}
      invariant |log.cache.refs| == log.cache.nbuf
    {
      ok := log.EndOp();
    }
    Share(1, ops, max);
    ok := log.EndOp();
  }

  method FillLog(log: Log)
    requires log.Valid() && log.n == 0 && log.outstanding > 0 && log.loose == {}
    requires log.cache.refs == map[] && log.cache.nbuf == log.r.cap
    requires log.r.start + 2 * log.r.cap < |log.cache.disk|
    modifies log`held, log`n, log`block, log`loose, log.cache
    ensures log.Valid() && log.n == log.r.cap && log.loose == {} && |log.cache.refs| == log.cache.nbuf
  {
    hide Log.Valid;
    var home := log.r.start + log.r.cap + 1;
    for i := 0 to log.r.cap
      invariant log.Valid() && log.n == i && log.loose == {} && log.cache.disk == old(log.cache.disk)
      invariant |log.cache.refs| == i && forall bn :: bn in log.cache.refs ==> bn < home + i
    {
      Added(log.cache.refs, home + i, Ref(1, []));
      var ok := log.Update(home + i, []);
    }
  }

  lemma Added(refs: map<nat, Ref>, bn: nat, ref: Ref)
    ensures bn !in refs ==> |refs[bn := ref]| == |refs| + 1
  {
    assert refs[bn := ref].Keys == refs.Keys + {bn};
  }

  lemma Share(i: nat, ops: nat, max: nat)
    requires i <= ops
    ensures i * max <= ops * max
  {
  }

  /** With the sizes of param.h: three operations, MAXOPBLOCKS = 10, LOGBLOCKS = NBUF = 30. */
  method CommitRunsOut() returns (ok: bool)
    ensures !ok
  {
    hide Cache.Valid, Pins, Agree, CommittedBy;
    var disk: Disk := seq(100, _ => seq(256, _ => 0));
    var r := Region(2, 30);
    assert HeadOf(disk[2]) == [];
    var cache := new Cache(30, 1, disk);
    var log := new Log(cache, r);
    ok := NoSpareBuffer(log, 3, 10);
  }
}
