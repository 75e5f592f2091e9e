/** The ring buffer of a pipe (kernel/pipe.c) with its 32-bit counters. Each method runs from
    one acquisition of the pipe's lock to its release. */
module Pipe {
  import opened Disk

  const PIPESIZE := 512
  const TWO32 := 0x1_0000_0000

  /** What one stay in the lock came to. */
  datatype Stay = Finished | Sleeps | Broken

  class Ring {
    const data: array<Byte>
    var nread: Word
    var nwrite: Word
    var readopen: bool
    var writeopen: bool
    /** Every byte ever stored, and every byte ever read out. */
    ghost var sent: seq<Byte>
    ghost var got: seq<Byte>

    /** The bytes read so far are a prefix of the bytes stored, the rest is in the ring, and
        the counters are the true counts modulo 2^32. */
    ghost predicate Valid()
      reads this, data
    {
      && data.Length == PIPESIZE
      && got <= sent && |sent| - |got| <= PIPESIZE
      && nwrite == |sent| % TWO32 && nread == |got| % TWO32
      && (forall k | |got| <= k < |sent| :: data[k % PIPESIZE] == sent[k])
    }

    constructor ()
      ensures Valid() && sent == [] && got == [] && readopen && writeopen && fresh(data)
    {
      data := new Byte[PIPESIZE](_ => 0);
      nread, nwrite, readopen, writeopen := 0, 0, true, true;
      sent, got := [], [];
    }

    /** pipewrite from one acquisition of the lock to its release: bytes from `i` on are
        stored until none is left or the ring is full. */
    method WriteStay(addr: seq<Byte>, i: nat) returns (stay: Stay, j: nat)
      requires Valid() && i <= |addr|
      modifies this`nwrite, this`sent, data
      ensures Valid()
      ensures i <= j <= |addr| && sent == old(sent) + addr[i..j]
      ensures stay == Finished <==> |addr| - i <= PIPESIZE - (|old(sent)| - |got|)
      ensures stay != Finished ==> |sent| - |got| == PIPESIZE && (stay == Sleeps <==> readopen)
      ensures stay == Finished ==> j == |addr|
    {
      j := i;
      while j < |addr|
        invariant Valid() && i <= j <= |addr| && sent == old(sent) + addr[i..j]
      {
        FullTest(|sent|, |got|);
        if nwrite == (nread + PIPESIZE) % TWO32 {
          stay := if readopen then Sleeps else Broken;
          return;
        }
        Wrapped(|sent|);
        FreeSlot(|sent|, |got|);
        data[nwrite % PIPESIZE] := addr[j];
        nwrite := (nwrite + 1) % TWO32;
        sent := sent + [addr[j]];
        j := j + 1;
      }
      stay := Finished;
    }

    /** piperead from one acquisition of the lock to its release. */
    method ReadStay(n: nat) returns (stay: Stay, addr: seq<Byte>)
      requires Valid()
      modifies this`nread, this`got
      ensures Valid()
      ensures stay == (if old(|got| == |sent|) && writeopen then Sleeps else Finished)
      ensures got == old(got) + addr
      ensures |addr| == (if |sent| - |old(got)| < n then |sent| - |old(got)| else n)
      ensures addr == sent[|old(got)|..|old(got)| + |addr|]
    {
      addr := [];
      EmptyTest(|sent|, |got|);
      if nread == nwrite && writeopen {
        return Sleeps, addr;
      }
      var i := 0;
      while i < n
        invariant Valid() && 0 <= i <= n && i == |addr| && |old(got)| + i <= |sent|
        invariant got == old(got) + addr && addr == sent[|old(got)|..|old(got)| + i]
      {
        EmptyTest(|sent|, |got|);
        if nread == nwrite {
          break;
        }
        Wrapped(|got|);
        addr := addr + [data[nread % PIPESIZE]];
        got := got + [sent[|got|]];
        nread := (nread + 1) % TWO32;
        i := i + 1;
      }
      stay := Finished;
    }
  }

  /** Comparing the wrapped counters tells a full ring apart from every other one. */
  lemma FullTest(w: nat, r: nat)
    requires r <= w <= r + PIPESIZE
    ensures w % TWO32 == (r % TWO32 + PIPESIZE) % TWO32 <==> w == r + PIPESIZE
  {
    assert (r % TWO32 + PIPESIZE) % TWO32 == (r + PIPESIZE) % TWO32;
  }

  lemma EmptyTest(w: nat, r: nat)
    requires r <= w <= r + PIPESIZE
    ensures r % TWO32 == w % TWO32 <==> w == r
  {
  }

  /** Wrapping the counter does not disturb the position in the ring. */
  lemma Wrapped(k: nat)
    ensures k % TWO32 % PIPESIZE == k % PIPESIZE
    ensures (k % TWO32 + 1) % TWO32 == (k + 1) % TWO32
  {
    var q := k / TWO32;
    assert k == q * TWO32 + k % TWO32;
    assert q * TWO32 == PIPESIZE * (q * 0x80_0000);
  }

  /** The slot behind the last byte holds none of the bytes still in the ring. */
  lemma FreeSlot(k: nat, r: nat)
    requires k < r + PIPESIZE
    ensures forall i | r <= i < k :: i % PIPESIZE != k % PIPESIZE
  {
    forall i | r <= i < k
      ensures i % PIPESIZE != k % PIPESIZE
    {
      var a, b := i / PIPESIZE, k / PIPESIZE;
      assert i == PIPESIZE * a + i % PIPESIZE && k == PIPESIZE * b + k % PIPESIZE;
    }
  }
}
