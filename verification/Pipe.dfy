/**
 Pipes (pipe.c): a ring of PIPESIZE bytes with 32-bit counters. A method runs from where a thread has taken the
 pipe's lock, at the start of a call or after a sleep, to where it releases it, at the end of the call or in the
 next sleep; the lock is free exactly between methods, which may follow each other in any order.
 */
module Pipe {

  const PIPESIZE: nat := 512
  const UINT: nat := 0x1_0000_0000

  type Byte = nat

  /** How a turn ends: the call returns, or the thread sleeps and will take another turn. */
  datatype Turn = Return(value: int) | Sleep

  /** The bytes written and not yet read are in the ring, each in the slot of its number. */
  ghost predicate Ring(data: seq<Byte>, written: seq<Byte>, read: seq<Byte>) {
    && |data| == PIPESIZE && read <= written && |written| - |read| <= PIPESIZE
    && forall k :: |read| <= k < |written| ==> data[k % PIPESIZE] == written[k]
  }

  lemma Put(data: seq<Byte>, written: seq<Byte>, read: seq<Byte>, ch: Byte)
    requires Ring(data, written, read) && |written| - |read| < PIPESIZE
    ensures Ring(data[|written| % PIPESIZE := ch], written + [ch], read)
  {
  }

  lemma Get(data: seq<Byte>, written: seq<Byte>, read: seq<Byte>)
    requires Ring(data, written, read) && |read| < |written|
    ensures Ring(data, written, read + [data[|read| % PIPESIZE]]) && data[|read| % PIPESIZE] == written[|read|]
  {
  }

  /** A wrapped counter still finds its slot. */
  lemma SlotOf(x: nat)
    ensures x % UINT % PIPESIZE == x % PIPESIZE
  {
    var k := 8388608 * (x / UINT);
    assert x == x % UINT + PIPESIZE * k;
  }

  lemma WrapNext(x: nat)
    ensures (x % UINT + 1) % UINT == (x + 1) % UINT
  {
  }

  /** Wrapped counters are equal, or PIPESIZE apart, exactly when the true ones are. */
  lemma Distance(w: nat, r: nat)
    requires r <= w <= r + PIPESIZE
    ensures w % UINT == r % UINT <==> w == r
    ensures w % UINT == (r % UINT + PIPESIZE) % UINT <==> w == r + PIPESIZE
  {
  }

  /** A writer with `n` bytes to go, `have` of them in reach, writes `alive` into an empty pipe and is then killed. */
  predicate KilledBetween(have: nat, n: nat, alive: nat) {
    0 < alive < n && alive <= have && alive <= PIPESIZE
  }

  class Pipe {
    var data: seq<Byte>
    var nread: nat
    var nwrite: nat
    var readopen: bool
    var writeopen: bool
    var readers: set<nat>     // threads asleep on &nread
    var writers: set<nat>     // threads asleep on &nwrite
    ghost var written: seq<Byte>
    ghost var read: seq<Byte>

    ghost predicate Valid()
      reads this
    {
      Ring(data, written, read) && nwrite == |written| % UINT && nread == |read| % UINT
    }

    /** Nobody sleeps without a reason. */
    ghost predicate Restful()
      reads this
    {
      && (readers != {} ==> |written| == |read| && writeopen)
      && (writers != {} ==> |written| == |read| + PIPESIZE && readopen)
    }

    constructor ()
      ensures Valid() && Restful() && written == [] && read == [] && readopen && writeopen && readers == writers == {}
    {
      data, nread, nwrite := seq(PIPESIZE, i => 0), 0, 0;
      readopen, writeopen, readers, writers := true, true, {}, {};
      written, read := [], [];
    }

    /**
     A turn of pipewrite of `n` bytes that has written `i`. `src` are the bytes copyin can fetch; the thread is
     killed after `alive` looks, if it looks that often.
     */
    method Write(t: nat, src: seq<Byte>, n: nat, i: nat, alive: nat) returns (i': nat, turn: Turn)
      requires Valid() && i <= |src| <= n && t !in readers && t !in writers
      modifies this
      ensures Valid() && i <= i' <= |src| && written == old(written) + src[i..i'] && read == old(read)
      ensures readopen == old(readopen) && writeopen == old(writeopen)
      ensures turn.Sleep? ==> i' < n && readers == {} && writers == old(writers) + {t}
      ensures turn.Return? ==> writers == old(writers) && readers == if turn.value == -1 then old(readers) else {}
      ensures i' - i == if readopen then Least(Least(|src| - i, alive), PIPESIZE - |old(written)| + |read|) else 0
      ensures turn == if i' == n then Return(n)
                      else if !readopen || i' - i == alive then Return(-1)
                      else if |written| == |read| + PIPESIZE then Sleep
                      else Return(i')
      ensures old(Restful()) ==>
                (Restful() <==> !(old(readopen) && old(readers) != {} && KilledBetween(|src| - i, n - i, alive)))
    {
      i' := i;
      while i' < n
        invariant i <= i' <= |src|
        invariant Valid() && written == old(written) + src[i..i'] && read == old(read)
        invariant unchanged(`readopen) && unchanged(`writeopen) && unchanged(`readers) && unchanged(`writers)
        invariant i' > i ==> readopen && |old(written)| < |read| + PIPESIZE
        invariant i' - i <= alive
        decreases n - i'
      {
        Distance(|written|, |read|);
        SlotOf(|written|);
        WrapNext(|written|);
        if !readopen || i' - i >= alive { return i', Return(-1); }
        if nwrite == (nread + PIPESIZE) % UINT {
          readers, writers := {}, writers + {t};
          return i', Sleep;
        }
        if i' == |src| { break; }
        Put(data, written, read, src[i']);
        data, nwrite := data[nwrite % PIPESIZE := src[i']], (nwrite + 1) % UINT;
        written := written + [src[i']];
        i' := i' + 1;
      }
      readers := {};
      turn := Return(i');
    }

    /**
     A turn of piperead of `n` bytes. Only `room` of them can be copied out. Sleeps on an empty pipe while it can
     still be written; then takes what is there.
     */
    method Read(t: nat, n: nat, room: nat, killed: bool) returns (got: seq<Byte>, turn: Turn)
      requires Valid() && t !in readers && t !in writers
      modifies this
      ensures Valid() && (old(Restful()) ==> Restful()) && written == old(written) && read == old(read) + got
      ensures readopen == old(readopen) && writeopen == old(writeopen)
      ensures turn.Sleep? <==> |written| == |old(read)| && writeopen && !killed
      ensures turn.Sleep? ==> got == [] && readers == old(readers) + {t}
      ensures |written| == |old(read)| && writeopen && killed ==>
                got == [] && turn == Return(-1) && readers == old(readers)
      ensures !(|written| == |old(read)| && writeopen) ==>
                && |got| == Least(n, Least(room, |written| - |old(read)|))
                && turn == Return(if got == [] && room == 0 && n > 0 && |written| > |read| then -1 else |got|)
                && writers == {} && readers == old(readers)
    {
      got, turn := [], Return(-1);
      Distance(|written|, |read|);
      if nread == nwrite && writeopen {
        if killed { return; }
        readers, turn := readers + {t}, Sleep;
        return;
      }
      var i: int := 0;
      while i < n
        invariant 0 <= i <= n && i == |got| <= room && |got| <= |written| - |old(read)|
        invariant Valid() && written == old(written) && read == old(read) + got
        invariant unchanged(`readopen) && unchanged(`writeopen) && unchanged(`readers)
      {
        Distance(|written|, |read|);
        SlotOf(|read|);
        WrapNext(|read|);
        if nread == nwrite { break; }
        var ch := data[nread % PIPESIZE];
        if i == room {
          if i == 0 { i := -1; }
          break;
        }
        Get(data, written, read);
        nread, read := (nread + 1) % UINT, read + [ch];
        got, i := got + [ch], i + 1;
      }
      writers := {};
      turn := Return(i);
    }

    method Close(writable: bool) returns (freed: bool)
      requires Valid()
      modifies this`readopen, this`writeopen, this`readers, this`writers
      ensures Valid() && (old(Restful()) ==> Restful()) && freed == (!readopen && !writeopen)
      ensures writable ==> !writeopen && readopen == old(readopen) && readers == {} && writers == old(writers)
      ensures !writable ==> !readopen && writeopen == old(writeopen) && writers == {} && readers == old(readers)
      ensures old(Restful()) && freed ==> readers == {} && writers == {}
    {
      if writable {
        writeopen, readers := false, {};
      } else {
        readopen, writers := false, {};
      }
      freed := !readopen && !writeopen;
    }

    /** A kill, or a wakeup meant for somebody else. */
    method Stray(t: nat)
      requires Valid()
      modifies this`readers, this`writers
      ensures Valid() && (old(Restful()) ==> Restful()) && readers == old(readers) - {t}
      ensures writers == old(writers) - {t}
    {
      readers, writers := readers - {t}, writers - {t};
    }
  }

  /** A reader sleeps on the empty pipe; a writer is killed after one byte of two; the reader sleeps on. */
  method ReaderLeftAsleep() returns (p: Pipe)
    ensures p.Valid() && p.readers != {} && |p.written| == 1 && p.read == [] && !p.Restful()
  {
    p := new Pipe();
    var got, turn := p.Read(1, 1, 1, false);
    var i;
    i, turn := p.Write(2, [7, 8], 2, 0, 1);
  }

  function Least(a: nat, b: nat): (r: nat) {
    if a < b then a else b
  }
}
