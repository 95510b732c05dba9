/**
 Readers and writers of one pipe, in any number and any order. A step is what a
 call does between taking the pipe's lock and giving it up, by returning or by
 sleeping; wakeup makes every sleeper on its channel runnable again.
 */
module PipeMachine {
  import opened Bytes
  import opened PipeRing

  datatype Proc =
    | Out
    | Writing(buf: seq<Byte>, i: nat, asleep: bool)  // in pipewrite, bytes buf[..i] stored
    | Reading(n: nat, asleep: bool)                  // in piperead

  datatype State = State(
    pipe: Pipe,
    procs: seq<Proc>,
    killed: seq<bool>,
    ret: seq<int>,      // what each process's last call returned
    stored: seq<Byte>,  // history: every byte a writer stored
    taken: seq<Byte>)   // history: every byte a reader took

  function Init(nproc: nat): State {
    State(Pipe(seq(PIPESIZE, _ => 0), 0, 0, true, true), seq(nproc, _ => Out), seq(nproc, _ => false), seq(nproc, _ => 0), [], [])
  }

  /** A wakeup of the readers' channel, or of the writers'. */
  function Awake(q: Proc, readers: bool): Proc {
    match q
    case Reading(n, _) => if readers then Reading(n, false) else q
    case Writing(buf, i, _) => if readers then q else Writing(buf, i, false)
    case Out => q
  }

  function Wake(procs: seq<Proc>, readers: bool): (r: seq<Proc>)
    ensures |r| == |procs|
    ensures forall i :: 0 <= i < |procs| ==> r[i] == Awake(procs[i], readers)
  {
    seq(|procs|, i requires 0 <= i < |procs| => Awake(procs[i], readers))
  }

  predicate Ok(s: State, p: nat) {
    p < |s.procs| == |s.killed| == |s.ret| && |s.pipe.data| == PIPESIZE
  }

  predicate Call(s: State, s': State, p: nat, q: Proc) {
    && Ok(s, p) && s.procs[p] == Out
    && (q.Writing? ==> q.i == 0 && !q.asleep && s.pipe.writeopen)
    && (q.Reading? ==> !q.asleep && s.pipe.readopen)
    && s' == s.(procs := s.procs[p := q])
  }

  /** pipewrite from the lock to the next sleep or return. */
  function Write(s: State, p: nat): State
    requires Ok(s, p) && s.procs[p].Writing? && s.procs[p].i <= |s.procs[p].buf|
  {
    var w := s.procs[p];
    var rest := w.buf[w.i..];
    var (pipe, k) := WriteRun(s.pipe, rest);
    var t := s.(pipe := pipe, stored := s.stored + rest[..k]);
    if k == |rest| then t.(procs := Wake(s.procs[p := Out], true), ret := s.ret[p := |w.buf|])
    else if !pipe.readopen || s.killed[p] then t.(procs := s.procs[p := Out], ret := s.ret[p := -1])
    else t.(procs := Wake(s.procs, true)[p := w.(i := w.i + k, asleep := true)])
  }

  /** piperead from the lock to the next sleep or return. */
  function Read(s: State, p: nat): State
    requires Ok(s, p) && s.procs[p].Reading?
  {
    if Empty(s.pipe) && s.pipe.writeopen then
      if s.killed[p] then s.(procs := s.procs[p := Out], ret := s.ret[p := -1])
      else s.(procs := s.procs[p := s.procs[p].(asleep := true)])
    else
      var (pipe, bs) := ReadRun(s.pipe, s.procs[p].n);
      s.(pipe := pipe, taken := s.taken + bs, procs := Wake(s.procs[p := Out], false), ret := s.ret[p := |bs|])
  }

  /** kill: the flag, and out of any sleep. */
  function Kill(s: State, p: nat): State
    requires Ok(s, p)
  {
    s.(killed := s.killed[p := true], procs := s.procs[p := Awake(Awake(s.procs[p], true), false)])
  }

  /** Nobody is in a call on one end. */
  predicate Unused(s: State, writable: bool) {
    forall p :: 0 <= p < |s.procs| ==> if writable then !s.procs[p].Writing? else !s.procs[p].Reading?
  }

  /** pipeclose; an end is closed only when nobody is in a call on it (PipeCalls.CloseFindsNobody). */
  predicate Close(s: State, s': State, writable: bool) {
    && Unused(s, writable)
    && if writable then
         s' == s.(pipe := s.pipe.(writeopen := false), procs := Wake(s.procs, true))
       else
         s' == s.(pipe := s.pipe.(readopen := false), procs := Wake(s.procs, false))
  }

  datatype Step =
    | CallStep(p: nat, q: Proc)
    | WriteStep(p: nat)
    | ReadStep(p: nat)
    | KillStep(p: nat)
    | CloseStep(writable: bool)

  predicate StepBy(s: State, s': State, a: Step) {
    match a
    case CallStep(p, q) => Call(s, s', p, q)
    case WriteStep(p) =>
      && Ok(s, p) && s.procs[p].Writing? && !s.procs[p].asleep && s.procs[p].i <= |s.procs[p].buf|
      && s' == Write(s, p)
    case ReadStep(p) => Ok(s, p) && s.procs[p].Reading? && !s.procs[p].asleep && s' == Read(s, p)
    case KillStep(p) => Ok(s, p) && s' == Kill(s, p)
    case CloseStep(w) => |s.procs| == |s.killed| && Close(s, s', w)
  }

  ghost predicate IsRun(run: seq<State>, steps: seq<Step>) {
    && |run| == |steps| + 1 && run[0] == Init(|run[0].procs|)
    && forall i :: 0 <= i < |steps| ==> StepBy(run[i], run[i + 1], steps[i])
  }

  // ---- first in, first out ----

  predicate Asleep(q: Proc) {
    (q.Writing? || q.Reading?) && q.asleep
  }

  ghost predicate Inv(s: State) {
    && |s.procs| == |s.killed| == |s.ret|
    && (forall p :: 0 <= p < |s.procs| && s.killed[p] ==> !Asleep(s.procs[p]))
    && Holds(s.pipe, s.stored, s.taken)
    && (forall p :: 0 <= p < |s.procs| && s.procs[p].Writing? ==> s.procs[p].i <= |s.procs[p].buf| && s.pipe.writeopen)
    && (forall p :: 0 <= p < |s.procs| && s.procs[p].Reading? ==> s.pipe.readopen)
    // a sleeping writer found the ring full, and it still is
    && (forall p :: 0 <= p < |s.procs| && s.procs[p].Writing? && s.procs[p].asleep ==> Full(s.pipe) && s.pipe.readopen)
  }

  lemma StepInv(s: State, s': State, a: Step)
    requires Inv(s) && StepBy(s, s', a)
    ensures Inv(s')
  {
    match a
    case CallStep(p, q) =>
    case WriteStep(p) => WriteInv(s, p);
    case ReadStep(p) => ReadInv(s, p);
    case KillStep(p) =>
    case CloseStep(w) =>
  }

  lemma ReadInv(s: State, p: nat)
    requires Inv(s) && p < |s.procs| && s.procs[p].Reading? && !s.procs[p].asleep
    ensures Inv(Read(s, p))
  {
    ReadRunHolds(s.pipe, s.stored, s.taken, s.procs[p].n);
    hide Holds;
  }

  lemma WriteInv(s: State, p: nat)
    requires Inv(s) && p < |s.procs| && s.procs[p].Writing?
    ensures Inv(Write(s, p))
  {
    var w := s.procs[p];
    var rest := w.buf[w.i..];
    WriteRunHolds(s.pipe, s.stored, s.taken, rest);
    CountersTell(s.pipe, s.stored, s.taken);
    var (pipe, k) := WriteRun(s.pipe, rest);
    CountersTell(pipe, s.stored + rest[..k], s.taken);
  }

  lemma {:induction false} RunInv(run: seq<State>, steps: seq<Step>, i: nat)
    requires IsRun(run, steps) && i < |run|
    ensures Inv(run[i])
  {
    if i > 0 {
      RunInv(run, steps, i - 1);
      StepInv(run[i - 1], run[i], steps[i - 1]);
    }
  }

  /**
   FIFO. In every interleaving the bytes read so far are a prefix of the bytes
   stored so far, and the difference of the counters modulo 2^32 is the number
   of bytes in between, at most 512, also after the counters overflow.
   */
  lemma Fifo(run: seq<State>, steps: seq<Step>, i: nat)
    requires IsRun(run, steps) && i < |run|
    ensures run[i].taken <= run[i].stored
    ensures (run[i].pipe.nwrite - run[i].pipe.nread) % WRAP == |run[i].stored| - |run[i].taken|
    ensures 0 <= |run[i].stored| - |run[i].taken| <= PIPESIZE
  {
    RunInv(run, steps, i);
    CountersTell(run[i].pipe, run[i].stored, run[i].taken);
  }

  // ---- what a call does ----

  /** The bytes that process p stored in steps j to i - 1, in order. */
  function StoredBy(run: seq<State>, steps: seq<Step>, j: nat, i: nat, p: nat): seq<Byte>
    requires j <= i < |run| == |steps| + 1
    decreases i
  {
    if i == j then []
    else StoredBy(run, steps, j, i - 1, p) + if steps[i - 1] == WriteStep(p) then Growth(run[i - 1].stored, run[i].stored) else []
  }

  /** The bytes that it took. */
  function TakenBy(run: seq<State>, steps: seq<Step>, j: nat, i: nat, p: nat): seq<Byte>
    requires j <= i < |run| == |steps| + 1
    decreases i
  {
    if i == j then []
    else TakenBy(run, steps, j, i - 1, p) + if steps[i - 1] == ReadStep(p) then Growth(run[i - 1].taken, run[i].taken) else []
  }

  function Growth(a: seq<Byte>, b: seq<Byte>): seq<Byte> {
    if |a| <= |b| then b[|a|..] else []
  }

  /** Step j is process p's call q, and its next call is not before step i. */
  predicate InCall(steps: seq<Step>, j: nat, i: nat, p: nat, q: Proc) {
    && j < i <= |steps| && steps[j] == CallStep(p, q)
    && forall k :: j < k < i ==> !(steps[k].CallStep? && steps[k].p == p)
  }

  /** Bytes come and go only in the steps of writers and of readers, one of them at a time. */
  lemma OnlyCallsMoveBytes(run: seq<State>, steps: seq<Step>, i: nat)
    requires IsRun(run, steps) && i < |steps|
    ensures run[i].stored <= run[i + 1].stored && run[i].taken <= run[i + 1].taken
    ensures !steps[i].WriteStep? ==> run[i + 1].stored == run[i].stored
    ensures !steps[i].ReadStep? ==> run[i + 1].taken == run[i].taken
  {
  }

  /** Where a call of pipewrite stands: in the call with buf[..i] stored, or returned. */
  ghost predicate Wrote(s: State, p: nat, buf: seq<Byte>, bytes: seq<Byte>) {
    && p < |s.procs| == |s.ret|
    && match s.procs[p]
       case Writing(b, i, _) => b == buf && i <= |buf| && bytes == buf[..i]
       case Out => (s.ret[p] == |buf| && bytes == buf) || (s.ret[p] == -1 && bytes < buf)
       case Reading(_, _) => false
  }

  lemma CallBegins(s: State, s': State, p: nat, q: Proc)
    requires Inv(s) && StepBy(s, s', CallStep(p, q))
    ensures q.Writing? ==> Wrote(s', p, q.buf, [])
    ensures q.Reading? ==> HasRead(s', p, q.n, [])
  {
  }

  /**
   pipewrite, across all its sleeps and whatever others do in between: the bytes it has
   stored are, in order, the first i of its buffer while it is in the call, all of them
   if it returns their number, and not all of them if it returns -1.
   */
  lemma {:induction false} WritesItsBytes(run: seq<State>, steps: seq<Step>, j: nat, i: nat, p: nat, buf: seq<Byte>)
    requires IsRun(run, steps) && InCall(steps, j, i, p, Writing(buf, 0, false))
    ensures Wrote(run[i], p, buf, StoredBy(run, steps, j + 1, i, p))
    decreases i
  {
    hide Inv, StepBy, Wrote, Init;
    if i == j + 1 {
      RunInv(run, steps, j);
      CallBegins(run[j], run[i], p, Writing(buf, 0, false));
    } else {
      WritesItsBytes(run, steps, j, i - 1, p, buf);
      RunInv(run, steps, i - 1);
      WroteStep(run[i - 1], run[i], steps[i - 1], p, buf, StoredBy(run, steps, j + 1, i - 1, p));
    }
  }

  lemma WroteStep(s: State, s': State, a: Step, p: nat, buf: seq<Byte>, bytes: seq<Byte>)
    requires Inv(s) && StepBy(s, s', a) && Wrote(s, p, buf, bytes) && !(a.CallStep? && a.p == p)
    ensures Wrote(s', p, buf, bytes + if a == WriteStep(p) then Growth(s.stored, s'.stored) else [])
  {
    hide Inv, WriteRun;
    assert bytes + [] == bytes;
    if a == WriteStep(p) {
      var i := s.procs[p].i;
      var k := WriteRun(s.pipe, buf[i..]).1;
      assert Growth(s.stored, s'.stored) == buf[i..][..k];
      assert buf[..i] + buf[i..][..k] == buf[..i + k];
      assert k == |buf| - i ==> buf[..i + k] == buf;
    }
  }

  /** Where a call of piperead stands: nothing taken yet, or returned. */
  ghost predicate HasRead(s: State, p: nat, n: nat, bytes: seq<Byte>) {
    && p < |s.procs| == |s.ret|
    && match s.procs[p]
       case Reading(m, _) => m == n && bytes == []
       case Out => |bytes| <= n && s.ret[p] == (if bytes == [] && s.ret[p] == -1 then -1 else |bytes|)
       case Writing(_, _, _) => false
  }

  /** piperead, across its sleeps: it returns the number of bytes it has taken, or -1 and has taken none. */
  lemma {:induction false} ReadsItsBytes(run: seq<State>, steps: seq<Step>, j: nat, i: nat, p: nat, n: nat)
    requires IsRun(run, steps) && InCall(steps, j, i, p, Reading(n, false))
    ensures HasRead(run[i], p, n, TakenBy(run, steps, j + 1, i, p))
    decreases i
  {
    hide Inv, StepBy, HasRead, Init;
    if i == j + 1 {
      RunInv(run, steps, j);
      CallBegins(run[j], run[i], p, Reading(n, false));
    } else {
      ReadsItsBytes(run, steps, j, i - 1, p, n);
      RunInv(run, steps, i - 1);
      ReadStepBytes(run[i - 1], run[i], steps[i - 1], p, n, TakenBy(run, steps, j + 1, i - 1, p));
    }
  }

  lemma ReadStepBytes(s: State, s': State, a: Step, p: nat, n: nat, bytes: seq<Byte>)
    requires Inv(s) && StepBy(s, s', a) && HasRead(s, p, n, bytes) && !(a.CallStep? && a.p == p)
    ensures HasRead(s', p, n, bytes + if a == ReadStep(p) then Growth(s.taken, s'.taken) else [])
  {
    hide Inv;
    assert bytes + [] == bytes;
    if a == ReadStep(p) {
      assert Growth(s.taken, s'.taken) == if Empty(s.pipe) && s.pipe.writeopen then [] else ReadRun(s.pipe, n).1;
    }
  }

  /**
   When calls return. A step of pipewrite stores what fits, and returns -1 exactly if that is
   not all and the read end is closed or the process killed. A step of piperead takes the
   oldest bytes, as many as asked for and there; it sleeps, or returns -1 if killed, exactly
   if there are none and the write end is open.
   */
  lemma CallSteps(run: seq<State>, steps: seq<Step>, i: nat, p: nat)
    requires IsRun(run, steps) && i < |steps| && (steps[i] == WriteStep(p) || steps[i] == ReadStep(p))
    ensures p < |run[i].procs| == |run[i].killed| == |run[i + 1].procs| == |run[i + 1].ret|
    ensures var s, t := run[i], run[i + 1];
            var there := |s.stored| - |s.taken|;
            && (steps[i] == WriteStep(p) ==>
                  && s.procs[p].Writing? && s.procs[p].i <= |s.procs[p].buf|
                  && var left := s.procs[p].buf[s.procs[p].i..];
                  var k := if |left| < PIPESIZE - there then |left| else PIPESIZE - there;
                  && 0 <= k && t.stored == s.stored + left[..k]
                  && t.procs[p] == (if k < |left| && s.pipe.readopen && !s.killed[p]
                                    then Writing(s.procs[p].buf, s.procs[p].i + k, true) else Out)
                  && (t.procs[p] == Out ==> t.ret[p] == if k == |left| then |s.procs[p].buf| else -1))
            && (steps[i] == ReadStep(p) ==>
                  && s.procs[p].Reading? && 0 <= there
                  && var n := s.procs[p].n;
                  var k := if n < there then n else there;
                  var waits := there == 0 && s.pipe.writeopen;
                  && |s.taken| + k <= |s.stored|
                  && t.taken == s.taken + (if waits then [] else s.stored[|s.taken|..|s.taken| + k])
                  && t.procs[p] == (if waits && !s.killed[p] then Reading(n, true) else Out)
                  && (t.procs[p] == Out ==> t.ret[p] == if waits then -1 else k))
  {
    RunInv(run, steps, i);
    var s, t := run[i], run[i + 1];
    assert StepBy(s, t, steps[i]);
    CountersTell(s.pipe, s.stored, s.taken);
    hide IsRun;
    if steps[i] == WriteStep(p) {
      WriteRunHolds(s.pipe, s.stored, s.taken, s.procs[p].buf[s.procs[p].i..]);
    } else {
      ReadRunHolds(s.pipe, s.stored, s.taken, s.procs[p].n);
      var bs := ReadRun(s.pipe, s.procs[p].n).1;
      assert bs == (s.taken + bs)[|s.taken|..] == s.stored[|s.taken|..|s.taken| + |bs|];
    }
  }

  // ---- wakeups ----

  /** No reader sleeps while there is something to read or nobody left to write. */
  ghost predicate ReadersAwake(s: State) {
    forall p :: 0 <= p < |s.procs| && s.procs[p].Reading? && s.procs[p].asleep ==> Empty(s.pipe) && s.pipe.writeopen
  }

  /** A killed writer is about to fill the ring under a sleeping reader: it leaves without a wakeup. */
  ghost predicate LosesWakeup(s: State, a: Step) {
    && a.WriteStep? && a.p < |s.procs| == |s.killed| && s.procs[a.p].Writing? && s.killed[a.p]
    && |s.procs[a.p].buf| - s.procs[a.p].i > PIPESIZE
    && exists q :: 0 <= q < |s.procs| && s.procs[q].Reading? && s.procs[q].asleep
  }

  lemma WriteWakes(s: State, p: nat)
    requires Inv(s) && ReadersAwake(s) && p < |s.procs| && s.procs[p].Writing? && !s.procs[p].asleep
    ensures ReadersAwake(Write(s, p)) <==> !LosesWakeup(s, WriteStep(p))
  {
    var w := s.procs[p];
    var rest := w.buf[w.i..];
    WriteRunHolds(s.pipe, s.stored, s.taken, rest);
    CountersTell(s.pipe, s.stored, s.taken);
    var (pipe, k) := WriteRun(s.pipe, rest);
    CountersTell(pipe, s.stored + rest[..k], s.taken);
    var t := Write(s, p);
    if LosesWakeup(s, WriteStep(p)) {
      var q :| 0 <= q < |s.procs| && s.procs[q].Reading? && s.procs[q].asleep;
      assert t.procs[q] == s.procs[q];
    }
  }

  /** Exactly when a step keeps readers from sleeping on a pipe with bytes in it. */
  lemma WakeupExact(s: State, s': State, a: Step)
    requires Inv(s) && ReadersAwake(s) && StepBy(s, s', a)
    ensures ReadersAwake(s') <==> !LosesWakeup(s, a)
  {
    match a
    case WriteStep(p) => WriteWakes(s, p);
    case ReadStep(p) =>
      ReadRunHolds(s.pipe, s.stored, s.taken, s.procs[p].n);
      CountersTell(s.pipe, s.stored, s.taken);
      var (pipe, bs) := ReadRun(s.pipe, s.procs[p].n);
      CountersTell(pipe, s.stored, s.taken + bs);
    case CallStep(p, q) =>
    case KillStep(p) =>
    case CloseStep(w) =>
  }

  /** Nobody who has been killed sleeps in a call. */
  lemma KilledNeverSleep(run: seq<State>, steps: seq<Step>, i: nat, p: nat)
    requires IsRun(run, steps) && i < |run| && p < |run[i].procs|
    ensures |run[i].killed| == |run[i].procs| && (run[i].killed[p] ==> !Asleep(run[i].procs[p]))
  {
    RunInv(run, steps, i);
  }

  /** Whenever the lock is free: a sleeping writer means full and readable. */
  lemma WritersNeverStuck(run: seq<State>, steps: seq<Step>, i: nat, p: nat)
    requires IsRun(run, steps) && i < |run|
    requires p < |run[i].procs| && run[i].procs[p].Writing? && run[i].procs[p].asleep
    ensures |run[i].stored| - |run[i].taken| == PIPESIZE && run[i].pipe.readopen
  {
    RunInv(run, steps, i);
    CountersTell(run[i].pipe, run[i].stored, run[i].taken);
  }

  /** And a sleeping reader means empty and writable, unless some killed writer has left as above. */
  lemma {:induction false} ReadersNeverStuck(run: seq<State>, steps: seq<Step>, i: nat)
    requires IsRun(run, steps) && i < |run|
    requires forall j :: 0 <= j < i ==> !LosesWakeup(run[j], steps[j])
    ensures ReadersAwake(run[i])
  {
    if i > 0 {
      ReadersNeverStuck(run, steps, i - 1);
      RunInv(run, steps, i - 1);
      WakeupExact(run[i - 1], run[i], steps[i - 1]);
    }
  }

  /** It does happen: a reader asleep on an empty pipe, and a killed writer of 513 bytes. */
  lemma LostWakeupHappens() returns (run: seq<State>, steps: seq<Step>)
    ensures IsRun(run, steps) && !ReadersAwake(run[|run| - 1])
  {
    var buf: seq<Byte> := seq(PIPESIZE + 1, _ => 0);
    var s0 := Init(2);
    var s1 := s0.(procs := s0.procs[0 := Reading(1, false)]);
    var s2 := Read(s1, 0);
    var s3 := s2.(procs := s2.procs[1 := Writing(buf, 0, false)]);
    var s4 := Kill(s3, 1);
    run := [s0, s1, s2, s3, s4, Write(s4, 1)];
    steps := [CallStep(0, Reading(1, false)), ReadStep(0), CallStep(1, Writing(buf, 0, false)), KillStep(1), WriteStep(1)];
    assert StepBy(s0, s1, steps[0]) && StepBy(s1, s2, steps[1]) && StepBy(s2, s3, steps[2]) && StepBy(s3, s4, steps[3]);
    assert s4.procs[0] == Reading(1, true);
    assert LosesWakeup(s4, WriteStep(1));
    RunInv(run, steps, 4);
    assert ReadersAwake(s4);
    WriteWakes(s4, 1);
  }
}
