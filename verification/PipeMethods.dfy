/** pipe.c as it runs: each method is one stretch of a call under the pipe's lock. */
module PipeMethods {
  import opened Bytes
  import opened PipeRing

  /** How a stretch of pipewrite or piperead ends. */
  datatype Outcome = Returned(value: int) | Slept

  class PipeObject {
    const data: array<Byte>
    var nread: int
    var nwrite: int
    var readopen: bool
    var writeopen: bool
    ghost var stored: seq<Byte>
    ghost var taken: seq<Byte>

    ghost function View(): Pipe
      reads this, data
    {
      Pipe(data[..], nread, nwrite, readopen, writeopen)
    }

    ghost predicate Valid()
      reads this, data
    {
      data.Length == PIPESIZE && Holds(View(), stored, taken)
    }

    /** piperead sleeps while this holds. */
    ghost predicate ReaderWaits()
      reads this, data
    {
      Empty(View()) && writeopen
    }

    /** pipewrite sleeps while this holds. */
    ghost predicate WriterWaits()
      reads this, data
    {
      Full(View()) && readopen
    }

    /** pipealloc's initialisation of a new pipe. */
    constructor ()
      ensures Valid() && readopen && writeopen && nread == nwrite == 0 && stored == taken == []
      ensures fresh(data)
    {
      data := new Byte[PIPESIZE](_ => 0);
      nread := 0;
      nwrite := 0;
      readopen := true;
      writeopen := true;
      stored := [];
      taken := [];
    }

    /** Stores one byte in a ring that is not full. */
    method PutByte(b: Byte)
      requires Valid() && !Full(View())
      modifies this`nwrite, this`stored, data
      ensures Valid() && View() == Put(old(View()), b) && stored == old(stored) + [b]
    {
      PutHolds(View(), stored, taken, b);
      ghost var q := Put(View(), b);
      data[nwrite % PIPESIZE] := b;
      nwrite := (nwrite + 1) % WRAP;
      stored := stored + [b];
      assert View() == q;
    }

    /** Takes the oldest byte of a ring that is not empty. */
    method PopByte() returns (b: Byte)
      requires Valid() && !Empty(View())
      modifies this`nread, this`taken
      ensures Valid() && View() == Pop(old(View())) && b == Front(old(View())) && taken == old(taken) + [b]
    {
      PopHolds(View(), stored, taken);
      b := data[nread % PIPESIZE];
      nread := (nread + 1) % WRAP;
      taken := taken + [b];
    }

    /**
     pipewrite from byte i on, until it returns or sleeps. What it stores follows
     what was stored before; it stops short only when the ring is full.
     */
    method Write(addr: seq<Byte>, i: nat, killed: bool) returns (j: nat, wakes: bool, out: Outcome)
      requires Valid() && i <= |addr|
      modifies this`nwrite, this`stored, data
      ensures Valid() && i <= j <= |addr|
      ensures View() == WriteRun(old(View()), addr[i..]).0 && j == i + WriteRun(old(View()), addr[i..]).1
      ensures stored == old(stored) + addr[i..j]
      ensures out == if j == |addr| then Returned(|addr|) else if !readopen || killed then Returned(-1) else Slept
      ensures j < |addr| ==> |stored| - |taken| == PIPESIZE
      ensures wakes <==> j == |addr| || out == Slept
    {
      hide Holds, Put;
      ghost var p0 := View();
      j := i;
      while j < |addr|
        invariant i <= j <= |addr| && Valid() && stored == old(stored) + addr[i..j]
        invariant WriteRun(p0, addr[i..]).0 == WriteRun(View(), addr[j..]).0
        invariant WriteRun(p0, addr[i..]).1 == WriteRun(View(), addr[j..]).1 + j - i
      {
        CountersTell(View(), stored, taken);
        if nwrite == (nread + PIPESIZE) % WRAP {
          wakes, out := readopen && !killed, if !readopen || killed then Returned(-1) else Slept;
          return;
        }
        PutByte(addr[j]);
        assert addr[j..][1..] == addr[j + 1..];
        j := j + 1;
      }
      assert addr[j..] == [];
      wakes, out := true, Returned(|addr|);
    }

    /** piperead, until it returns or sleeps. What it takes are the oldest bytes not yet taken. */
    method Read(n: nat, killed: bool) returns (bs: seq<Byte>, wakes: bool, out: Outcome)
      requires Valid()
      modifies this`nread, this`taken
      ensures Valid() && taken == old(taken) + bs
      ensures old(|stored| == |taken| && writeopen) ==> bs == [] && !wakes && out == if killed then Returned(-1) else Slept
      ensures !old(|stored| == |taken| && writeopen) ==>
                wakes && out == Returned(|bs|) && (View(), bs) == ReadRun(old(View()), n)
                && |bs| == if n < |stored| - |old(taken)| then n else |stored| - |old(taken)|
    {
      hide Holds, Pop, Front, ReadRun;
      CountersTell(View(), stored, taken);
      bs := [];
      if nread == nwrite && writeopen {
        wakes, out := false, if killed then Returned(-1) else Slept;
        return;
      }
      ghost var p0 := View();
      ReadRunHolds(p0, stored, taken, n);
      assert [] + ReadRun(p0, n).1 == ReadRun(p0, n).1;
      while |bs| < n
        invariant |bs| <= n && Valid() && taken == old(taken) + bs
        invariant ReadRun(p0, n) == (ReadRun(View(), n - |bs|).0, bs + ReadRun(View(), n - |bs|).1)
      {
        if nread == nwrite {
          break;
        }
        ghost var p, m := View(), n - |bs|;
        ReadRunStep(p, m);
        var b := PopByte();
        assert bs + ReadRun(p, m).1 == bs + [b] + ReadRun(View(), m - 1).1;
        bs := bs + [b];
      }
      ReadRunStep(View(), n - |bs|);
      assert bs + [] == bs;
      wakes, out := true, Returned(|bs|);
    }

    /**
     pipeclose; the pipe is freed when the second end closes. Whoever waited for
     something that can no longer come is woken, and nobody else is.
     */
    method Close(writable: bool) returns (freed: bool, wakesReaders: bool, wakesWriters: bool)
      requires Valid()
      modifies this`readopen, this`writeopen
      ensures Valid() && View() == old(View()).(readopen := readopen, writeopen := writeopen)
      ensures readopen == (old(readopen) && writable) && writeopen == (old(writeopen) && !writable)
      ensures freed <==> !readopen && !writeopen
      ensures old(ReaderWaits()) && !ReaderWaits() ==> wakesReaders
      ensures old(WriterWaits()) && !WriterWaits() ==> wakesWriters
      ensures wakesReaders <==> writable
      ensures wakesWriters <==> !writable
    {
      wakesReaders, wakesWriters := false, false;
      if writable {
        writeopen := false;
        wakesReaders := true;
      } else {
        readopen := false;
        wakesWriters := true;
      }
      freed := !readopen && !writeopen;
    }
  }
}
