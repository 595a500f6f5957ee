/** pipe.c: a ring buffer indexed by 32-bit counters that wrap. Each method is what a process does
    between taking the pipe's lock and giving it up, in sleep or for good; any interleaving of
    readers and writers is a sequence of such calls. The size of the buffer, PIPESIZE, is left open. */
module Pipe {
  import opened Param

  // ---------- counters

  lemma MulStep(a: int, b: int, size: nat)
    ensures a < b ==> (a + 1) * size <= b * size
  {
  }

  /** Division is unique. */
  lemma ModIs(x: nat, q: nat, r: nat, size: nat)
    requires 0 < size && r < size && x == q * size + r
    ensures x % size == r && x / size == q
  {
    var q', r' := x / size, x % size;
    MulStep(q', q, size);
    MulStep(q, q', size);
    assert q' * size + r' == q * size + r;
  }

  /** A counter that wraps still finds the right slot. */
  lemma SlotOfWrapped(n: nat, size: nat)
    requires 0 < size && UINT % size == 0
    ensures n % UINT % size == n % size
  {
    ModMod(n, UINT, size);
  }

  lemma ModMod(n: nat, m: nat, size: nat)
    requires 0 < size && 0 < m && m % size == 0
    ensures n % m % size == n % size
  {
    var q, r, k := n / m, n % m, m / size;
    var b, c := r / size, r % size;
    assert n == q * m + r && m == k * size && r == b * size + c;
    Regroup(q, k, b, c, size);
    ModIs(n, q * k + b, c, size);
  }

  lemma Regroup(q: nat, k: nat, b: nat, c: nat, size: nat)
    ensures q * (k * size) + (b * size + c) == (q * k + b) * size + c
  {
  }

  /** It does so for all counts exactly when the size divides 2^32. */
  lemma SlotsAgree(size: nat)
    requires 0 < size
    ensures (forall n: nat {:trigger n % UINT} :: n % UINT % size == n % size) <==> UINT % size == 0
  {
    if UINT % size == 0 {
      forall n: nat
        ensures n % UINT % size == n % size
      {
        SlotOfWrapped(n, size);
      }
    } else {
      assert UINT % UINT % size == 0 != UINT % size;
    }
  }

  /** Counts that differ by less than the size have different slots. */
  lemma SlotsDiffer(a: nat, b: nat, size: nat)
    requires a < b < a + size
    ensures a % size != b % size
  {
    var qa, qb := a / size, b / size;
    MulStep(qa, qb, size);
    MulStep(qb, qa, size);
    assert b - a == (qb * size - qa * size) + (b % size - a % size);
  }

  lemma WrapApart(a: nat, b: nat)
    requires a <= b < a + UINT
    ensures a % UINT == b % UINT <==> a == b
  {
    if a < b {
      SlotsDiffer(a, b, UINT);
    }
  }

  lemma WrapStep(n: nat)
    ensures (n % UINT + 1) % UINT == (n + 1) % UINT
  {
  }

  /** The test `nwrite == nread + PIPESIZE`, made on wrapped counters. */
  lemma FullTest(a: nat, b: nat, size: nat)
    requires a <= b <= a + size && size < UINT
    ensures b % UINT == (a % UINT + size) % UINT <==> b == a + size
  {
    assert (a % UINT + size) % UINT == (a + size) % UINT;
    WrapApart(b, a + size);
  }

  datatype WriteEnd = Written | WriteFailed | WriteSleeps(next: nat)
  datatype ReadEnd = Got(bytes: seq<byte>) | ReadFailed | ReadSleeps

  class Pipe {
    const size: nat
    const data: array<byte>
    var nread: nat
    var nwrite: nat
    var readopen: bool
    var writeopen: bool
    /** All bytes ever written, and all ever read, in order. */
    ghost var sent: seq<byte>
    ghost var got: seq<byte>

    ghost predicate Valid()
      reads this, data
    {
      && 0 < size < UINT && UINT % size == 0 && data.Length == size
      && |got| <= |sent| <= |got| + size && sent[..|got|] == got
      && nread == |got| % UINT && nwrite == |sent| % UINT
      && forall k: nat :: |got| <= k < |sent| ==> Held(sent, k)
    }

    ghost predicate Held(sent: seq<byte>, k: nat)
      requires k < |sent| && 0 < size == data.Length
      reads data
    {
      data[k % size] == sent[k]
    }

    ghost function Buffered(): seq<byte>
      requires Valid()
      reads this, data
    {
      sent[|got|..]
    }

    constructor (size: nat)
      requires 0 < size < UINT && UINT % size == 0
      ensures Valid() && fresh(data) && this.size == size && sent == got == [] && readopen && writeopen
    {
      this.size := size;
      data := new byte[size];
      nread, nwrite, readopen, writeopen := 0, 0, true, true;
      sent, got := [], [];
    }

    /** `p->data[p->nwrite++ % PIPESIZE] = b`. */
    method Put(b: byte)
      requires Valid() && |sent| < |got| + size
      modifies this`nwrite, this`sent, data
      ensures Valid() && sent == old(sent) + [b]
    {
      SlotOfWrapped(|sent|, size);
      WrapStep(|sent|);
      data[nwrite % size] := b;
      nwrite := (nwrite + 1) % UINT;
      ghost var sent0 := sent;
      sent := sent + [b];
      forall k: nat | |got| <= k < |sent|
        ensures Held(sent, k)
      {
        if k < |sent0| {
          assert old(Held(sent, k));
          SlotsDiffer(k, |sent0|, size);
        }
      }
    }

    /** `p->data[p->nread++ % PIPESIZE]`. */
    method Take() returns (b: byte)
      requires Valid() && |got| < |sent|
      modifies this`nread, this`got
      ensures Valid() && got == old(got) + [b] && b == sent[|old(got)|]
    {
      SlotOfWrapped(|got|, size);
      WrapStep(|got|);
      assert Held(sent, |got|);
      b := data[nread % size];
      nread := (nread + 1) % UINT;
      got := got + [b];
    }

    /** pipewrite from byte i of addr on, until it returns or goes to sleep on a full pipe. */
    method Write(addr: seq<byte>, i: nat, killed: bool) returns (r: WriteEnd)
      requires Valid() && i <= |addr|
      modifies this`nwrite, this`sent, data
      ensures Valid() && got == old(got)
      ensures var room := size - |old(Buffered())|;
              && sent == old(sent) + (if |addr| - i <= room then addr[i..] else addr[i..i + room])
              && (r == Written <==> |addr| - i <= room)
              && (r == WriteFailed <==> |addr| - i > room && (!readopen || killed))
              && (r.WriteSleeps? <==> |addr| - i > room && readopen && !killed)
              && (r.WriteSleeps? ==> r.next == i + room)
    {
      var j := i;
      while j < |addr|
        invariant Valid() && i <= j <= |addr| && sent == old(sent) + addr[i..j]
      {
        FullTest(|got|, |sent|, size);
        if nwrite == (nread + size) % UINT {
          if !readopen || killed {
            return WriteFailed;
          }
          return WriteSleeps(j);
        }
        Put(addr[j]);
        j := j + 1;
      }
      return Written;
    }

    /** piperead of at most n bytes, until it returns or goes to sleep on an empty pipe. */
    method Read(n: nat, killed: bool) returns (r: ReadEnd)
      requires Valid()
      modifies this`nread, this`got
      ensures Valid()
      ensures r == ReadSleeps <==> old(Buffered()) == [] && writeopen && !killed
      ensures r == ReadFailed <==> old(Buffered()) == [] && writeopen && killed
      ensures !r.Got? ==> got == old(got)
      ensures r.Got? ==> got == old(got) + r.bytes && r.bytes <= old(Buffered())
                         && |r.bytes| == if n < |old(Buffered())| then n else |old(Buffered())|
    {
      WrapApart(|got|, |sent|);
      if nread == nwrite && writeopen {
        if killed {
          return ReadFailed;
        }
        return ReadSleeps;
      }
      var addr: seq<byte> := [];
      while |addr| < n
        invariant Valid() && |addr| <= n && got == old(got) + addr
        decreases n - |addr|
      {
        WrapApart(|got|, |sent|);
        if nread == nwrite {
          break;
        }
        var b := Take();
        addr := addr + [b];
      }
      return Got(addr);
    }

    /** pipeclose of one end; the pipe is freed with its second end. */
    method Close(writable: bool) returns (freed: bool)
      requires Valid()
      modifies this`readopen, this`writeopen
      ensures Valid() && Buffered() == old(Buffered())
      ensures writeopen == (old(writeopen) && !writable) && readopen == (old(readopen) && writable)
      ensures freed <==> !readopen && !writeopen
    {
      if writable {
        writeopen := false;
      } else {
        readopen := false;
      }
      freed := !readopen && !writeopen;
    }
  }
}
