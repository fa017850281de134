/**
 The on-disk redo log of xv6-riscv/kernel/log.c as a sequence of single-block disk
 writes, and what recovery makes of the disk after a crash between any two of them.

 A block is a sequence of 32-bit words. The header block holds the number of logged
 blocks and then their home addresses; log block i follows it at start + 1 + i.
 */
module Journal {
  import opened BufferCache

  datatype Region = Region(start: nat, cap: nat)

  datatype Tx = Tx(dst: seq<nat>, vals: seq<Block>)

  predicate IsHome(r: Region, b: nat) {
    b < r.start || r.start + r.cap < b
  }

  // ----- the header block

  function HeadBlock(blk: Block, dst: seq<nat>): (h: Block)
    requires |dst| < |blk|
  {
    [|dst|] + dst + blk[1 + |dst|..]
  }

  function HeadOf(blk: Block): (dst: seq<nat>)
    requires 0 < |blk| && blk[0] < |blk|
  {
    blk[1..1 + blk[0]]
  }

  lemma HeadRoundTrip(blk: Block, dst: seq<nat>)
    requires |dst| < |blk|
    ensures |HeadBlock(blk, dst)| == |blk|
    ensures HeadBlock(blk, dst)[0] == |dst| && HeadOf(HeadBlock(blk, dst)) == dst
  {
  }

  // ----- the disk writes of commit and of recovery

  /** A disk whose log region has room for a header and `cap` blocks. */
  ghost predicate Formatted(d: Disk, r: Region) {
    r.start + r.cap < |d| && r.cap < |d[r.start]| && d[r.start][0] <= r.cap
  }

  ghost predicate Targets(r: Region, size: nat, dst: seq<nat>) {
    && |dst| <= r.cap
    && (forall i :: 0 <= i < |dst| ==> IsHome(r, dst[i]) && dst[i] < size)
    && Distinct(dst)
  }

  ghost predicate TxOk(r: Region, size: nat, tx: Tx) {
    Targets(r, size, tx.dst) && |tx.vals| == |tx.dst|
  }

  ghost predicate Image(d: Disk, r: Region) {
    Formatted(d, r) && Targets(r, |d|, HeadOf(d[r.start]))
  }

  /** write_log after its first `k` iterations. */
  ghost function Logged(d: Disk, r: Region, vals: seq<Block>, k: nat): (e: Disk)
    requires k <= |vals| <= r.cap && r.start + r.cap < |d|
    ensures |e| == |d|
  {
    if k == 0 then d else Logged(d, r, vals, k - 1)[r.start + k := vals[k - 1]]
  }

  /** install_trans after its first `k` iterations. */
  ghost function Installed(d: Disk, r: Region, dst: seq<nat>, k: nat): (e: Disk)
    requires k <= |dst| && Targets(r, |d|, dst) && r.start + r.cap < |d|
    ensures |e| == |d|
  {
    if k == 0 then d else
    var e := Installed(d, r, dst, k - 1);
    e[dst[k - 1] := e[r.start + k]]
  }

  /** write_head */
  ghost function Headed(d: Disk, r: Region, dst: seq<nat>): (e: Disk)
    requires r.start < |d| && |dst| < |d[r.start]|
  {
    d[r.start := HeadBlock(d[r.start], dst)]
  }

  ghost function Sealed(d: Disk, r: Region, tx: Tx): (e: Disk)
    requires Formatted(d, r) && TxOk(r, |d|, tx)
    ensures |e| == |d|
  {
    LoggedAt(d, r, tx.vals, |tx.vals|);
    Headed(Logged(d, r, tx.vals, |tx.vals|), r, tx.dst)
  }

  /** The disk after the first `k` writes of commit: log blocks, header, home blocks, empty header. */
  ghost function CommitStep(d: Disk, r: Region, tx: Tx, k: nat): (e: Disk)
    requires Formatted(d, r) && TxOk(r, |d|, tx)
  {
    var n := |tx.dst|;
    if k <= n then Logged(d, r, tx.vals, k) else
    var c := Sealed(d, r, tx);
    if k <= 2 * n + 1 then Installed(c, r, tx.dst, k - n - 1) else
    SealedHead(d, r, tx);
    InstalledAt(c, r, tx.dst, n);
    Headed(Installed(c, r, tx.dst, n), r, [])
  }

  ghost function CommitTrail(d: Disk, r: Region, tx: Tx): (t: seq<Disk>)
    requires Formatted(d, r) && TxOk(r, |d|, tx)
  {
    if tx.dst == [] then [] else
    seq(2 * |tx.dst| + 2, k requires k >= 0 => CommitStep(d, r, tx, k + 1))
  }

  /** The disk after the first `k` writes of recover_from_log. */
  ghost function RecoverStep(d: Disk, r: Region, k: nat): (e: Disk)
    requires Image(d, r)
  {
    var dst := HeadOf(d[r.start]);
    if k <= |dst| then Installed(d, r, dst, k) else
    InstalledAt(d, r, dst, |dst|);
    Headed(Installed(d, r, dst, |dst|), r, [])
  }

  ghost function RecoverTrail(d: Disk, r: Region): (t: seq<Disk>)
    requires Image(d, r)
    ensures |t| > 0
  {
    seq(|HeadOf(d[r.start])| + 1, k requires k >= 0 => RecoverStep(d, r, k + 1))
  }

  ghost function Last(t: seq<Disk>): (d: Disk)
    requires t != []
  {
    t[|t| - 1]
  }

  lemma {:induction false} LoggedAt(d: Disk, r: Region, vals: seq<Block>, k: nat)
    requires k <= |vals| <= r.cap && r.start + r.cap < |d|
    ensures forall b :: 0 <= b < |d| && !(r.start < b <= r.start + k) ==> Logged(d, r, vals, k)[b] == d[b]
    ensures forall i :: 0 <= i < k ==> Logged(d, r, vals, k)[r.start + 1 + i] == vals[i]
  {
    if k > 0 { LoggedAt(d, r, vals, k - 1); }
  }

  lemma {:induction false} InstalledAt(d: Disk, r: Region, dst: seq<nat>, k: nat)
    requires k <= |dst| && Targets(r, |d|, dst) && r.start + r.cap < |d|
    ensures forall b :: 0 <= b < |d| && b !in dst[..k] ==> Installed(d, r, dst, k)[b] == d[b]
    ensures forall i :: 0 <= i < k ==> Installed(d, r, dst, k)[dst[i]] == d[r.start + 1 + i]
    ensures forall b :: r.start <= b <= r.start + r.cap ==> Installed(d, r, dst, k)[b] == d[b]
  {
    if k > 0 {
      InstalledAt(d, r, dst, k - 1);
      assert dst[..k] == dst[..k - 1] + [dst[k - 1]];
    }
  }

  lemma SealedHead(d: Disk, r: Region, tx: Tx)
    requires Formatted(d, r) && TxOk(r, |d|, tx)
    ensures Formatted(Sealed(d, r, tx), r) && HeadOf(Sealed(d, r, tx)[r.start]) == tx.dst
    ensures forall i :: 0 <= i < |tx.dst| ==> Sealed(d, r, tx)[r.start + 1 + i] == tx.vals[i]
    ensures forall b :: 0 <= b < |d| && IsHome(r, b) ==> Sealed(d, r, tx)[b] == d[b]
  {
    LoggedAt(d, r, tx.vals, |tx.vals|);
    HeadRoundTrip(d[r.start], tx.dst);
  }

  // ----- what a disk will look like once recovered

  /** Home blocks of `d` are those of `base`, and the log is empty. */
  ghost predicate Settled(d: Disk, r: Region, base: Disk) {
    && Formatted(d, r) && |d| == |base| && d[r.start][0] == 0
    && forall b :: 0 <= b < |d| && IsHome(r, b) ==> d[b] == base[b]
  }

  /** The log holds the committed `tx`; home blocks outside it are those of `base`. */
  ghost predicate Pending(d: Disk, r: Region, base: Disk, tx: Tx) {
    && Formatted(d, r) && |d| == |base| && TxOk(r, |d|, tx)
    && HeadOf(d[r.start]) == tx.dst
    && (forall i :: 0 <= i < |tx.dst| ==> d[r.start + 1 + i] == tx.vals[i])
    && forall b :: 0 <= b < |d| && IsHome(r, b) && b !in tx.dst ==> d[b] == base[b]
  }

  /** The home blocks once `tx` has happened. */
  ghost function Apply(base: Disk, tx: Tx, k: nat): (d: Disk)
    requires k <= |tx.dst| == |tx.vals|
    requires forall i :: 0 <= i < |tx.dst| ==> tx.dst[i] < |base|
    ensures |d| == |base|
  {
    if k == 0 then base else Apply(base, tx, k - 1)[tx.dst[k - 1] := tx.vals[k - 1]]
  }

  lemma {:induction false} ApplyAt(base: Disk, tx: Tx, k: nat)
    requires k <= |tx.dst| == |tx.vals| && Distinct(tx.dst)
    requires forall i :: 0 <= i < |tx.dst| ==> tx.dst[i] < |base|
    ensures forall b :: 0 <= b < |base| && b !in tx.dst[..k] ==> Apply(base, tx, k)[b] == base[b]
    ensures forall i :: 0 <= i < k ==> Apply(base, tx, k)[tx.dst[i]] == tx.vals[i]
  {
    if k > 0 {
      ApplyAt(base, tx, k - 1);
      assert tx.dst[..k] == tx.dst[..k - 1] + [tx.dst[k - 1]];
    }
  }

  ghost function After(base: Disk, tx: Tx): (d: Disk)
    requires |tx.dst| == |tx.vals|
    requires forall i :: 0 <= i < |tx.dst| ==> tx.dst[i] < |base|
    ensures |d| == |base|
  {
    Apply(base, tx, |tx.dst|)
  }

  /** Installing any prefix of a committed transaction keeps it committed. */
  lemma InstallPending(d: Disk, r: Region, base: Disk, tx: Tx, k: nat)
    requires Pending(d, r, base, tx) && k <= |tx.dst|
    ensures Pending(Installed(d, r, tx.dst, k), r, base, tx)
  {
    InstalledAt(d, r, tx.dst, k);
  }

  /** Installing all of it and clearing the header settles it. */
  lemma InstallSettles(d: Disk, r: Region, base: Disk, tx: Tx)
    requires Pending(d, r, base, tx)
    ensures Formatted(Installed(d, r, tx.dst, |tx.dst|), r)
    ensures Settled(Headed(Installed(d, r, tx.dst, |tx.dst|), r, []), r, After(base, tx))
  {
    var n := |tx.dst|;
    InstalledAt(d, r, tx.dst, n);
    ApplyAt(base, tx, n);
    assert tx.dst[..n] == tx.dst;
    var e := Installed(d, r, tx.dst, n);
    HeadRoundTrip(e[r.start], []);
    forall b | 0 <= b < |d| && IsHome(r, b) ensures e[b] == After(base, tx)[b] {
      if b in tx.dst {
        var i :| 0 <= i < n && tx.dst[i] == b;
      }
    }
  }

  // ----- crashes

  /** The disk left by a crash after the first `k` of the writes `t`. */
  ghost function CrashAt(d: Disk, t: seq<Disk>, k: nat): (e: Disk) {
    if k == 0 || t == [] then d else if k <= |t| then t[k - 1] else Last(t)
  }

  /** Recovery attempts that crash after the given numbers of writes, one after the other. */
  ghost function Retry(d: Disk, r: Region, crashes: seq<nat>): (e: Disk)
    requires Image(d, r)
    ensures Image(e, r)
    decreases |crashes|
  {
    if crashes == [] then d else
    RecoverTrailImage(d, r, crashes[0]);
    Retry(CrashAt(d, RecoverTrail(d, r), crashes[0]), r, crashes[1..])
  }

  lemma RecoverTrailImage(d: Disk, r: Region, k: nat)
    requires Image(d, r)
    ensures Image(CrashAt(d, RecoverTrail(d, r), k), r)
  {
    var tx := LogContents(d, r);
    if tx.dst == [] {
      SettledCrash(d, r, d, k);
    } else {
      PendingCrash(d, r, d, tx, k);
    }
  }

  ghost function LogContents(d: Disk, r: Region): (tx: Tx)
    requires Image(d, r)
    ensures Pending(d, r, d, tx)
  {
    var dst := HeadOf(d[r.start]);
    Tx(dst, d[r.start + 1..r.start + 1 + |dst|])
  }

  /** A crash anywhere in the recovery of a committed transaction leaves it committed or settles it. */
  lemma PendingCrash(d: Disk, r: Region, base: Disk, tx: Tx, k: nat)
    requires Pending(d, r, base, tx)
    ensures Image(d, r)
    ensures var e := CrashAt(d, RecoverTrail(d, r), k);
            Image(e, r) && (if k <= |tx.dst| then Pending(e, r, base, tx) else Settled(e, r, After(base, tx)))
  {
    var n := |tx.dst|;
    if k <= n {
      InstallPending(d, r, base, tx, k);
      assert CrashAt(d, RecoverTrail(d, r), k) == Installed(d, r, tx.dst, k);
    } else {
      InstallSettles(d, r, base, tx);
    }
  }

  lemma SettledCrash(d: Disk, r: Region, base: Disk, k: nat)
    requires Settled(d, r, base)
    ensures Image(d, r)
    ensures Image(CrashAt(d, RecoverTrail(d, r), k), r) && Settled(CrashAt(d, RecoverTrail(d, r), k), r, base)
  {
    HeadRoundTrip(d[r.start], []);
    assert RecoverTrail(d, r) == [Headed(d, r, [])];
  }

  /** Recovery, however often it crashes first, ends with exactly the committed state. */
  lemma {:induction false} PendingRecovers(d: Disk, r: Region, base: Disk, tx: Tx, crashes: seq<nat>)
    requires Pending(d, r, base, tx)
    ensures Image(d, r)
    ensures Settled(Last(RecoverTrail(Retry(d, r, crashes), r)), r, After(base, tx))
    decreases |crashes|
  {
    if crashes == [] {
      PendingCrash(d, r, base, tx, |RecoverTrail(d, r)|);
    } else {
      PendingCrash(d, r, base, tx, crashes[0]);
      var e := CrashAt(d, RecoverTrail(d, r), crashes[0]);
      if crashes[0] <= |tx.dst| {
        PendingRecovers(e, r, base, tx, crashes[1..]);
      } else {
        SettledRecovers(e, r, After(base, tx), crashes[1..]);
      }
    }
  }

  lemma {:induction false} SettledRecovers(d: Disk, r: Region, base: Disk, crashes: seq<nat>)
    requires Settled(d, r, base)
    ensures Image(d, r)
    ensures Settled(Last(RecoverTrail(Retry(d, r, crashes), r)), r, base)
    decreases |crashes|
  {
    if crashes == [] {
      SettledCrash(d, r, base, 1);
    } else {
      SettledCrash(d, r, base, crashes[0]);
      SettledRecovers(CrashAt(d, RecoverTrail(d, r), crashes[0]), r, base, crashes[1..]);
    }
  }

  lemma LoggedSettled(d: Disk, r: Region, base: Disk, vals: seq<Block>, k: nat)
    requires Settled(d, r, base) && k <= |vals| <= r.cap
    ensures Settled(Logged(d, r, vals, k), r, base) && Image(Logged(d, r, vals, k), r)
  {
    LoggedAt(d, r, vals, k);
  }

  lemma SealedPending(d: Disk, r: Region, base: Disk, tx: Tx)
    requires Settled(d, r, base) && TxOk(r, |d|, tx)
    ensures Pending(Sealed(d, r, tx), r, base, tx)
  {
    SealedHead(d, r, tx);
  }

  lemma CommitStepState(d: Disk, r: Region, base: Disk, tx: Tx, k: nat)
    requires Settled(d, r, base) && TxOk(r, |d|, tx)
    ensures Image(CommitStep(d, r, tx, k), r)
    ensures k <= |tx.dst| ==> Settled(CommitStep(d, r, tx, k), r, base)
    ensures |tx.dst| < k <= 2 * |tx.dst| + 1 ==> Pending(CommitStep(d, r, tx, k), r, base, tx)
    ensures k > 2 * |tx.dst| + 1 ==> Settled(CommitStep(d, r, tx, k), r, After(base, tx))
  {
    if k <= |tx.dst| {
      LoggedSettled(d, r, base, tx.vals, k);
    } else {
      SealedPending(d, r, base, tx);
      if k <= 2 * |tx.dst| + 1 {
        InstallPending(Sealed(d, r, tx), r, base, tx, k - |tx.dst| - 1);
      } else {
        InstallSettles(Sealed(d, r, tx), r, base, tx);
      }
    }
  }

  lemma CommitTrailAt(d: Disk, r: Region, tx: Tx, k: nat)
    requires Formatted(d, r) && TxOk(r, |d|, tx) && tx.dst != []
    ensures CrashAt(d, CommitTrail(d, r, tx), k) ==
            CommitStep(d, r, tx, if k <= 2 * |tx.dst| + 2 then k else 2 * |tx.dst| + 2)
  {
  }

  /** Which of the two states a crash after `k` writes of commit stands for: the header write decides. */
  lemma CommitCrash(d: Disk, r: Region, base: Disk, tx: Tx, k: nat)
    requires Settled(d, r, base) && TxOk(r, |d|, tx)
    ensures var e := CrashAt(d, CommitTrail(d, r, tx), k);
            && Image(e, r)
            && (k <= |tx.dst| ==> Settled(e, r, base))
            && (|tx.dst| < k <= 2 * |tx.dst| + 1 && tx.dst != [] ==> Pending(e, r, base, tx))
            && (k > 2 * |tx.dst| + 1 || tx.dst == [] ==> Settled(e, r, After(base, tx)))
  {
    if tx.dst != [] {
      CommitTrailAt(d, r, tx, k);
      CommitStepState(d, r, base, tx, if k <= 2 * |tx.dst| + 2 then k else 2 * |tx.dst| + 2);
    }
  }

  /**
   Crash atomicity. Crash after any number of writes of commit, then let recovery crash
   any number of times: the first recovery that completes leaves every home block as before
   the transaction if the header had not been written, as after it otherwise, and the log empty.
   */
  lemma CrashAtomicity(d: Disk, r: Region, base: Disk, tx: Tx, k: nat, crashes: seq<nat>)
    requires Settled(d, r, base) && TxOk(r, |d|, tx)
    ensures var e := CrashAt(d, CommitTrail(d, r, tx), k);
            && Image(e, r)
            && Settled(Last(RecoverTrail(Retry(e, r, crashes), r)), r,
                       if k <= |tx.dst| then base else After(base, tx))
  {
    var e := CrashAt(d, CommitTrail(d, r, tx), k);
    CommitCrash(d, r, base, tx, k);
    if k <= |tx.dst| {
      SettledRecovers(e, r, base, crashes);
    } else if tx.dst != [] && k <= 2 * |tx.dst| + 1 {
      PendingRecovers(e, r, base, tx, crashes);
    } else {
      SettledRecovers(e, r, After(base, tx), crashes);
    }
  }

  // ----- whole runs

  ghost predicate TxsOk(r: Region, size: nat, txs: seq<Tx>) {
    forall i :: 0 <= i < |txs| ==> TxOk(r, size, txs[i])
  }

  /** The disk after a whole commit. */
  ghost function Committed(d: Disk, r: Region, tx: Tx): (e: Disk)
    requires Formatted(d, r) && TxOk(r, |d|, tx)
  {
    if tx.dst == [] then d else CommitStep(d, r, tx, 2 * |tx.dst| + 2)
  }

  lemma CommittedSettles(d: Disk, r: Region, base: Disk, tx: Tx)
    requires Settled(d, r, base) && TxOk(r, |d|, tx)
    ensures Settled(Committed(d, r, tx), r, After(base, tx))
  {
    if tx.dst != [] { CommitStepState(d, r, base, tx, 2 * |tx.dst| + 2); }
  }

  /** The disk after committing one transaction after another. */
  ghost function CommitAll(d: Disk, r: Region, txs: seq<Tx>): (e: Disk)
    requires Settled(d, r, d) && TxsOk(r, |d|, txs)
    ensures Settled(e, r, Replay(d, r, txs))
  {
    if txs == [] then d else
    var m := |txs| - 1;
    var p := CommitAll(d, r, txs[..m]);
    CommittedSettles(p, r, Replay(d, r, txs[..m]), txs[m]);
    Committed(p, r, txs[m])
  }

  /** The transactions applied in order to the home blocks, with no log involved. */
  ghost function Replay(base: Disk, r: Region, txs: seq<Tx>): (d: Disk)
    requires TxsOk(r, |base|, txs)
    ensures |d| == |base|
  {
    if txs == [] then base else After(Replay(base, r, txs[..|txs| - 1]), txs[|txs| - 1])
  }

  /** Durability: a crash in the last of a run of transactions loses at most that one. */
  lemma Durability(d: Disk, r: Region, done: seq<Tx>, tx: Tx, k: nat, crashes: seq<nat>)
    requires Settled(d, r, d) && TxsOk(r, |d|, done) && TxOk(r, |d|, tx)
    ensures TxsOk(r, |d|, done + [tx])
    ensures var p := CommitAll(d, r, done);
            var e := CrashAt(p, CommitTrail(p, r, tx), k);
            && Image(e, r)
            && Settled(Last(RecoverTrail(Retry(e, r, crashes), r)), r,
                       if k <= |tx.dst| then Replay(d, r, done) else Replay(d, r, done + [tx]))
  {
    CrashAtomicity(CommitAll(d, r, done), r, Replay(d, r, done), tx, k, crashes);
    var all := done + [tx];
    assert all[..|all| - 1] == done;
  }
}
