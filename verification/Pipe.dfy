/** pipe.c: a ring of PIPESIZE bytes with 32-bit counters that wrap. Each method is what a
    process does between acquire(&p->lock) and the release or sleep that ends its turn, so its
    contract holds of every interleaving of readers and writers. */
module Pipe {
  import opened Common

  const PIPESIZE: nat := 512

  /** How a turn ends: the call returns this number, or the process sleeps. */
  datatype Turn = Return(n: int) | Sleep

  function Min(a: nat, b: nat): nat {
    if a < b then a else b
  }

  /** 512 divides 2^32, so a wrapped counter still gives the right place in the ring. */
  lemma Slot(k: nat)
    ensures k % UINT32 % PIPESIZE == k % PIPESIZE
  {
    var q, r := k / UINT32, k % UINT32;
    assert k == q * UINT32 + r;
    assert k == q * 0x80_0000 * PIPESIZE + r;
    assert k % PIPESIZE == r % PIPESIZE;
  }

  lemma Succ(k: nat)
    ensures (k % UINT32 + 1) % UINT32 == (k + 1) % UINT32
  {
  }

  /** Fewer than PIPESIZE apart, two counts have different places. */
  lemma Apart(a: nat, b: nat)
    requires a < b < a + PIPESIZE
    ensures a % PIPESIZE != b % PIPESIZE
  {
  }

  class Pipe {
    const data: array<Byte>
    var nread: nat
    var nwrite: nat
    var readopen: bool
    var writeopen: bool
    ghost var written: seq<Byte>    // every byte ever deposited
    ghost var taken: nat            // how many of them have been read
    ghost var readers: set<nat>     // processes asleep on &p->nread
    ghost var writers: set<nat>     // processes asleep on &p->nwrite

    /** The counters are the true counts modulo 2^32, and the ring holds what is not yet read. */
    ghost predicate Valid()
      reads this, data
    {
      && data.Length == PIPESIZE
      && nread == taken % UINT32 && nwrite == |written| % UINT32
      && taken <= |written| <= taken + PIPESIZE
      && forall k :: taken <= k < |written| ==> data[k % PIPESIZE] == written[k]
    }

    /** Nobody sleeps who could go on: a sleeping reader means empty, a sleeping writer full. */
    ghost predicate NoneStuck()
      reads this
    {
      && (readers != {} ==> taken == |written| && writeopen)
      && (writers != {} ==> |written| == taken + PIPESIZE && readopen)
    }

    constructor ()
      ensures Valid() && NoneStuck() && readopen && writeopen && fresh(data)
      ensures written == [] && taken == 0 && readers == {} && writers == {}
    {
      data := new Byte[PIPESIZE](_ => 0);
      nread, nwrite, readopen, writeopen := 0, 0, true, true;
      written, taken, readers, writers := [], 0, {}, {};
    }

    predicate Full()
      reads this
    {
      nwrite == (nread + PIPESIZE) % UINT32
    }

    predicate Empty()
      reads this
    {
      nread == nwrite
    }

    /** The tests on the wrapped counters are right. */
    lemma CountersTell()
      requires Valid()
      ensures Full() <==> |written| == taken + PIPESIZE
      ensures Empty() <==> |written| == taken
    {
    }

    method Deposit(c: Byte)
      requires Valid() && !Full()
      modifies `nwrite, `written, data
      ensures Valid() && written == old(written) + [c]
    {
      CountersTell();
      Slot(|written|);
      data[nwrite % PIPESIZE] := c;
      Succ(|written|);
      nwrite := (nwrite + 1) % UINT32;
      written := written + [c];
      forall k | taken <= k < |written| - 1
        ensures k % PIPESIZE != (|written| - 1) % PIPESIZE
      {
        Apart(k, |written| - 1);
      }
    }

    method TakeOne() returns (c: Byte)
      requires Valid() && !Empty()
      modifies `nread, `taken
      ensures Valid() && taken == old(taken) + 1 && c == written[old(taken)]
    {
      CountersTell();
      Slot(taken);
      Succ(taken);
      c := data[nread % PIPESIZE];
      nread := (nread + 1) % UINT32;
      taken := taken + 1;
    }

    /** pipewrite by process w of addr[i..] up to where it returns or sleeps. All that fits is
        deposited in order. A reader asleep on the empty ring is left there by a writer that is killed,
        or has no reading end, and brings more than the ring holds; by no other. */
    method WriteTurn(w: nat, addr: seq<Byte>, i: nat, killed: bool) returns (t: Turn, j: nat)
      requires Valid() && w !in writers && w !in readers && i <= |addr|
      modifies this, data
      ensures Valid() && taken == old(taken) && readopen == old(readopen) && writeopen == old(writeopen)
      ensures j == i + Min(|addr| - i, old(taken + PIPESIZE - |written|))
      ensures written == old(written) + addr[i..j]
      ensures t == if j == |addr| then Return(|addr|) else if !readopen || killed then Return(-1) else Sleep
      ensures writers == if t.Sleep? then old(writers) + {w} else old(writers)
      ensures readers == if t == Return(-1) then old(readers) else {}
      ensures old(NoneStuck()) ==>
                (NoneStuck() <==> !(old(readers) != {} && |addr| - i > PIPESIZE && (!old(readopen) || killed)))
    {
      j := i;
      while j < |addr|
        invariant Valid() && i <= j <= |addr| && taken == old(taken)
        invariant written == old(written) + addr[i..j]
        invariant readopen == old(readopen) && writeopen == old(writeopen)
        invariant readers == old(readers) && writers == old(writers)
      {
        CountersTell();
        if Full() {
          if !readopen || killed {
            return Return(-1), j;
          }
          readers := {};
          writers := writers + {w};
          return Sleep, j;
        }
        Deposit(addr[j]);
        j := j + 1;
      }
      readers := {};
      return Return(|addr|), j;
    }

    /** piperead by process r of up to n bytes, up to where it returns or sleeps. What it gets is
        the next of what was deposited. */
    method ReadTurn(r: nat, n: nat, killed: bool) returns (t: Turn, addr: seq<Byte>)
      requires Valid() && r !in readers && r !in writers
      modifies this
      ensures Valid() && (old(NoneStuck()) ==> NoneStuck()) && written == old(written)
      ensures readopen == old(readopen) && writeopen == old(writeopen)
      ensures t == if old(taken == |written|) && writeopen then (if killed then Return(-1) else Sleep)
                   else Return(|addr|)
      ensures |addr| == if t.Return? && t.n >= 0 then Min(n, old(|written| - taken)) else 0
      ensures taken == old(taken) + |addr| && addr == written[old(taken)..taken]
      ensures readers == if t.Sleep? then old(readers) + {r} else old(readers)
      ensures writers == if t.Return? && t.n >= 0 then {} else old(writers)
    {
      addr := [];
      CountersTell();
      if Empty() && writeopen {
        if killed {
          return Return(-1), [];
        }
        readers := readers + {r};
        return Sleep, [];
      }
      var i := 0;
      while i < n
        invariant Valid() && i == |addr| <= n && taken == old(taken) + i
        invariant addr == written[old(taken)..taken] && written == old(written)
        invariant readopen == old(readopen) && writeopen == old(writeopen)
        invariant readers == old(readers) && writers == old(writers)
      {
        CountersTell();
        if Empty() {
          break;
        }
        var c := TakeOne();
        addr := addr + [c];
        i := i + 1;
      }
      CountersTell();
      writers := {};
      return Return(|addr|), addr;
    }

    /** pipeclose of one end, by the last process that has it open; it frees the pipe when both
        ends are closed. */
    method Close(writable: bool) returns (freed: bool)
      requires Valid() && (if writable then writers == {} else readers == {})
      modifies `readopen, `writeopen, `readers, `writers
      ensures Valid() && (old(NoneStuck()) ==> NoneStuck()) && written == old(written) && taken == old(taken)
      ensures writeopen == (old(writeopen) && !writable) && readopen == (old(readopen) && writable)
      ensures freed <==> !readopen && !writeopen
    {
      if writable {
        writeopen := false;
        readers := {};
      } else {
        readopen := false;
        writers := {};
      }
      freed := !readopen && !writeopen;
    }

    /** kill() of a process that may sleep in the pipe. */
    ghost method Woken(p: nat)
      requires Valid()
      modifies `readers, `writers
      ensures Valid() && (old(NoneStuck()) ==> NoneStuck())
      ensures readers == old(readers) - {p} && writers == old(writers) - {p}
    {
      readers, writers := readers - {p}, writers - {p};
    }

    /** Readers and writers never wait for each other. */
    lemma NoDeadlock()
      requires Valid() && NoneStuck()
      ensures readers == {} || writers == {}
    {
    }
  }

  /** A reader sleeps on an empty pipe and a killed process writes one byte more than the ring holds:
      the reader sleeps on beside a full ring, with nobody left in the pipe to wake it. */
  method StrandedReader(r: nat, w: nat, addr: seq<Byte>) returns (p: Pipe)
    requires r != w && |addr| == PIPESIZE + 1
    ensures fresh(p) && p.Valid() && !p.NoneStuck()
    ensures p.readers == {r} && p.writers == {} && p.taken == 0 && p.written == addr[..PIPESIZE]
  {
    p := new Pipe();
    var t, got := p.ReadTurn(r, 1, false);
    var u, j := p.WriteTurn(w, addr, 0, true);
  }
}
