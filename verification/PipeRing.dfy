/** A pipe's ring buffer, with its two free-running 32-bit counters. */
module PipeRing {
  import opened Bytes

  const PIPESIZE := 512
  const WRAP := 0x1_0000_0000  // the counters are 32-bit unsigned

  datatype Pipe = Pipe(data: seq<Byte>, nread: int, nwrite: int, readopen: bool, writeopen: bool)

  predicate Full(p: Pipe) {
    p.nwrite == (p.nread + PIPESIZE) % WRAP
  }

  predicate Empty(p: Pipe) {
    p.nread == p.nwrite
  }

  /** One byte stored behind the newest. */
  function Put(p: Pipe, b: Byte): Pipe
    requires |p.data| == PIPESIZE
  {
    p.(data := p.data[p.nwrite % PIPESIZE := b], nwrite := (p.nwrite + 1) % WRAP)
  }

  /** The oldest byte, and the pipe without it. */
  function Front(p: Pipe): Byte
    requires |p.data| == PIPESIZE
  {
    p.data[p.nread % PIPESIZE]
  }

  function Pop(p: Pipe): Pipe {
    p.(nread := (p.nread + 1) % WRAP)
  }

  /** pipewrite while it holds the lock: bytes go in until they are used up or the ring is full. */
  function WriteRun(p: Pipe, bs: seq<Byte>): (r: (Pipe, nat))
    requires |p.data| == PIPESIZE
    ensures |r.0.data| == PIPESIZE && r.1 <= |bs|
    decreases |bs|
  {
    if bs == [] || Full(p) then (p, 0)
    else
      var (q, k) := WriteRun(Put(p, bs[0]), bs[1..]);
      (q, k + 1)
  }

  /** piperead's copy loop: up to n bytes come out. */
  function ReadRun(p: Pipe, n: nat): (r: (Pipe, seq<Byte>))
    requires |p.data| == PIPESIZE
    ensures |r.0.data| == PIPESIZE && |r.1| <= n
    decreases n
  {
    if n == 0 || Empty(p) then (p, [])
    else
      var (q, bs) := ReadRun(Pop(p), n - 1);
      (q, [Front(p)] + bs)
  }

  lemma ReadRunStep(p: Pipe, n: nat)
    requires |p.data| == PIPESIZE
    ensures n == 0 || Empty(p) ==> ReadRun(p, n) == (p, [])
    ensures n > 0 && !Empty(p) ==> ReadRun(p, n) == (ReadRun(Pop(p), n - 1).0, [Front(p)] + ReadRun(Pop(p), n - 1).1)
  {
  }

  // ---- the abstract queue ----

  /** The ring holds what was stored and not yet taken, whatever the counters have wrapped to. */
  ghost predicate Holds(p: Pipe, stored: seq<Byte>, taken: seq<Byte>) {
    && |p.data| == PIPESIZE
    && taken <= stored && |stored| - |taken| <= PIPESIZE
    && p.nread == |taken| % WRAP && p.nwrite == |stored| % WRAP
    && (forall k :: |taken| <= k < |stored| ==> p.data[k % PIPESIZE] == stored[k])
  }

  /** 512 divides 2^32: a wrapped counter points at the same slot. */
  lemma SlotOfWrapped(n: nat)
    ensures (n % WRAP) % PIPESIZE == n % PIPESIZE
  {
    assert n == WRAP * (n / WRAP) + n % WRAP;
  }

  lemma WrappedDistance(a: nat, b: nat)
    requires 0 <= a - b <= PIPESIZE
    ensures (a % WRAP - b % WRAP) % WRAP == a - b
    ensures a % WRAP == b % WRAP <==> a == b
    ensures a % WRAP == (b % WRAP + PIPESIZE) % WRAP <==> a - b == PIPESIZE
  {
    assert a == WRAP * (a / WRAP) + a % WRAP && b == WRAP * (b / WRAP) + b % WRAP;
  }

  /** The counters tell full and empty apart, and their difference is the number of bytes in the ring. */
  lemma CountersTell(p: Pipe, stored: seq<Byte>, taken: seq<Byte>)
    requires Holds(p, stored, taken)
    ensures Empty(p) <==> |stored| == |taken|
    ensures Full(p) <==> |stored| - |taken| == PIPESIZE
    ensures (p.nwrite - p.nread) % WRAP == |stored| - |taken|
  {
    WrappedDistance(|stored|, |taken|);
  }

  lemma NextCounter(n: nat)
    ensures (n % WRAP + 1) % WRAP == (n + 1) % WRAP
  {
    assert n == WRAP * (n / WRAP) + n % WRAP;
  }

  lemma DistinctSlots(a: nat, b: nat)
    requires a < b < a + PIPESIZE
    ensures a % PIPESIZE != b % PIPESIZE
  {
    assert a == PIPESIZE * (a / PIPESIZE) + a % PIPESIZE && b == PIPESIZE * (b / PIPESIZE) + b % PIPESIZE;
  }

  lemma PutHolds(p: Pipe, stored: seq<Byte>, taken: seq<Byte>, b: Byte)
    requires Holds(p, stored, taken) && !Full(p)
    ensures Holds(Put(p, b), stored + [b], taken)
  {
    CountersTell(p, stored, taken);
    SlotOfWrapped(|stored|);
    NextCounter(|stored|);
    forall k | |taken| <= k < |stored|
      ensures Put(p, b).data[k % PIPESIZE] == stored[k]
    {
      DistinctSlots(k, |stored|);
    }
  }

  lemma PopHolds(p: Pipe, stored: seq<Byte>, taken: seq<Byte>)
    requires Holds(p, stored, taken) && !Empty(p)
    ensures |taken| < |stored| && Front(p) == stored[|taken|]
    ensures Holds(Pop(p), stored, taken + [Front(p)])
  {
    CountersTell(p, stored, taken);
    SlotOfWrapped(|taken|);
    NextCounter(|taken|);
  }

  /** A writer's run stores exactly a prefix of its bytes, and stops early only on a full ring. */
  lemma {:induction false} WriteRunHolds(p: Pipe, stored: seq<Byte>, taken: seq<Byte>, bs: seq<Byte>)
    requires Holds(p, stored, taken)
    ensures var (q, k) := WriteRun(p, bs);
            && Holds(q, stored + bs[..k], taken) && (k < |bs| ==> Full(q))
            && q.readopen == p.readopen && q.writeopen == p.writeopen
            && k == if |bs| < PIPESIZE - (|stored| - |taken|) then |bs| else PIPESIZE - (|stored| - |taken|)
    decreases |bs|
  {
    CountersTell(p, stored, taken);
    if bs == [] || Full(p) {
      assert stored + bs[..0] == stored;
    } else {
      PutHolds(p, stored, taken, bs[0]);
      WriteRunHolds(Put(p, bs[0]), stored + [bs[0]], taken, bs[1..]);
      var (q, k) := WriteRun(Put(p, bs[0]), bs[1..]);
      assert stored + [bs[0]] + bs[1..][..k] == stored + bs[..k + 1];
    }
  }

  /** A reader's run takes the oldest bytes, as many as it wants or there are. */
  lemma {:induction false} ReadRunHolds(p: Pipe, stored: seq<Byte>, taken: seq<Byte>, n: nat)
    requires Holds(p, stored, taken)
    ensures var (q, bs) := ReadRun(p, n);
            && Holds(q, stored, taken + bs)
            && q.readopen == p.readopen && q.writeopen == p.writeopen
            && |bs| == if n < |stored| - |taken| then n else |stored| - |taken|
    decreases n
  {
    CountersTell(p, stored, taken);
    if n == 0 || Empty(p) {
      assert taken + [] == taken;
    } else {
      PopHolds(p, stored, taken);
      ReadRunHolds(Pop(p), stored, taken + [Front(p)], n - 1);
      var (q, bs) := ReadRun(Pop(p), n - 1);
      assert taken + [Front(p)] + bs == taken + ([Front(p)] + bs);
    }
  }
}
