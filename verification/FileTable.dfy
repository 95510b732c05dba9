/** Open files and the descriptors that name them: file.c and the descriptor part of sysfile.c. */
module FileTable {
  import opened Options

  datatype Kind = FdNone | FdPipe | FdInode

  datatype File = File(ref: int, kind: Kind, readable: bool, writable: bool, pipe: nat)

  datatype Ends = Ends(readopen: bool, writeopen: bool)

  function Open(e: Ends, writable: bool): bool {
    if writable then e.writeopen else e.readopen
  }

  function Shut(e: Ends, writable: bool): Ends {
    if writable then e.(writeopen := false) else e.(readopen := false)
  }

  /** filealloc's choice: the first file with no reference. */
  predicate IsFree(files: seq<File>, f: nat) {
    f < |files| && files[f].ref == 0 && forall g :: 0 <= g < f ==> files[g].ref != 0
  }

  predicate NoneFree(files: seq<File>) {
    forall g :: 0 <= g < |files| ==> files[g].ref != 0
  }

  /** fdalloc's choice: the first descriptor that names no file. */
  predicate IsSlot(ofile: seq<Option<nat>>, fd: nat) {
    fd < |ofile| && ofile[fd] == None && forall k :: 0 <= k < fd ==> ofile[k].Some?
  }

  predicate NoSlot(ofile: seq<Option<nat>>) {
    forall k :: 0 <= k < |ofile| ==> ofile[k].Some?
  }

  /** How many descriptors name file f. */
  function Slots(ofile: seq<Option<nat>>, f: nat): nat {
    if ofile == [] then 0
    else Slots(ofile[..|ofile| - 1], f) + if ofile[|ofile| - 1] == Some(f) then 1 else 0
  }

  function One(o: Option<nat>, f: nat): nat {
    if o == Some(f) then 1 else 0
  }

  lemma {:induction false} SlotsUpdate(ofile: seq<Option<nat>>, fd: nat, o: Option<nat>, f: nat)
    requires fd < |ofile|
    ensures Slots(ofile[fd := o], f) == Slots(ofile, f) - One(ofile[fd], f) + One(o, f)
  {
    var n := |ofile| - 1;
    if fd == n {
      assert ofile[fd := o][..n] == ofile[..n];
    } else {
      assert ofile[fd := o][..n] == ofile[..n][fd := o];
      SlotsUpdate(ofile[..n], fd, o, f);
    }
  }

  lemma {:induction false} SlotCounts(ofile: seq<Option<nat>>, fd: nat, f: nat)
    requires fd < |ofile| && ofile[fd] == Some(f)
    ensures Slots(ofile, f) >= 1
  {
    SlotsUpdate(ofile, fd, None, f);
  }

  lemma {:induction false} NoSlots(ofile: seq<Option<nat>>, f: nat)
    requires forall k :: 0 <= k < |ofile| ==> ofile[k] == None
    ensures Slots(ofile, f) == 0
  {
    if ofile != [] { NoSlots(ofile[..|ofile| - 1], f); }
  }
}

/**
 Many processes opening, duplicating, inheriting and closing descriptors at
 once. Each step is one critical section or one private assignment, so a file
 slot may be reused between the two halves of a fileclose, and an exiting process
 may have a descriptor that names a file it no longer refers to.
 */
module SharedFiles {
  import opened Options
  import opened FileTable

  /** Where a process is inside a system call, and which references it holds there. */
  datatype Ctl =
    | Idle
    | Opened(f: nat)                          // sys_open has a file, no descriptor yet
    | Filling(f: nat, fd: nat)                // sys_open has a descriptor, the file is not filled in
    | Duping(f: nat, src: nat, dst: nat)      // sys_dup has a descriptor, filedup is still to come
    | Closing(fs: seq<nat>)                   // fileclose is to be called on these
    | Exiting(fd: nat, f: nat)                // exit is to call fileclose on the file of this descriptor
    | Stale(fd: nat, f: nat)                  // and has called it, but not yet cleared the descriptor
    | Shutting(q: nat, w: bool, next: Ctl)    // fileclose dropped a pipe's file, pipeclose is to come
    | Pipe1(f0: nat)                          // pipealloc has one file
    | Pipe2(f0: nat, f1: nat)                 // two
    | Pipe3(f0: nat, f1: nat)                 // pipealloc has returned
    | Pipe4(f0: nat, f1: nat, fd0: nat)       // the read end has a descriptor
    | InPipe(fd: nat, f: nat, q: nat, w: bool) // inside piperead or pipewrite, called through fd

  datatype Proc = Proc(ofile: seq<Option<nat>>, ctl: Ctl)

  datatype State = State(
    files: seq<File>,
    procs: seq<Proc>,
    pipes: map<nat, Ends>,  // allocated pipes
    made: nat,              // history: pipes are numbered in order of allocation
    freed: seq<nat>)        // history: kfree'd pipes

  function Init(nfile: nat, nproc: nat, nofile: nat): State {
    State(seq(nfile, _ => File(0, FdNone, false, false, 0)),
          seq(nproc, _ => Proc(seq(nofile, _ => None), Idle)), map[], 0, [])
  }

  // ---- steps ----

  function SetCtl(s: State, p: nat, c: Ctl): State
    requires p < |s.procs|
  {
    s.(procs := s.procs[p := s.procs[p].(ctl := c)])
  }

  function SetRef(s: State, f: nat, ref: int): State
    requires f < |s.files|
  {
    s.(files := s.files[f := s.files[f].(ref := ref)])
  }

  function SetSlot(s: State, p: nat, fd: nat, o: Option<nat>, c: Ctl): State
    requires p < |s.procs| && fd < |s.procs[p].ofile|
  {
    s.(procs := s.procs[p := Proc(s.procs[p].ofile[fd := o], c)])
  }

  function Closed(fs: seq<nat>): Ctl {
    if fs == [] then Idle else Closing(fs)
  }

  /** filealloc, for sys_open and for the two files of pipealloc. */
  predicate Alloc(s: State, s': State, p: nat, f: nat) {
    && p < |s.procs| && IsFree(s.files, f)
    && match s.procs[p].ctl
       case Idle => s' == SetCtl(SetRef(s, f, 1), p, Opened(f)) || s' == SetCtl(SetRef(s, f, 1), p, Pipe1(f))
       case Pipe1(f0) => s' == SetCtl(SetRef(s, f, 1), p, Pipe2(f0, f))
       case _ => false
  }

  /** pipealloc's second filealloc fails. */
  predicate AllocFails(s: State, s': State, p: nat) {
    && p < |s.procs| && NoneFree(s.files) && s.procs[p].ctl.Pipe1?
    && s' == SetCtl(s, p, Closing([s.procs[p].ctl.f0]))
  }

  /** fdalloc, for sys_open, sys_dup and the two descriptors of sys_pipe. */
  predicate GetSlot(s: State, s': State, p: nat, fd: nat, src: nat) {
    && p < |s.procs| && IsSlot(s.procs[p].ofile, fd)
    && match s.procs[p].ctl
       case Opened(f) => s' == SetSlot(s, p, fd, Some(f), Filling(f, fd))
       case Idle =>
         && src < |s.procs[p].ofile| && s.procs[p].ofile[src].Some?
         && s' == SetSlot(s, p, fd, s.procs[p].ofile[src], Duping(s.procs[p].ofile[src].value, src, fd))
       case Pipe3(f0, f1) => s' == SetSlot(s, p, fd, Some(f0), Pipe4(f0, f1, fd))
       case Pipe4(f0, f1, _) => s' == SetSlot(s, p, fd, Some(f1), Idle)
       case _ => false
  }

  /** fdalloc finds no descriptor: the files go back, and the first descriptor of a pipe with them. */
  predicate NoSlotLeft(s: State, s': State, p: nat) {
    && p < |s.procs| && NoSlot(s.procs[p].ofile)
    && match s.procs[p].ctl
       case Opened(f) => s' == SetCtl(s, p, Closing([f]))
       case Pipe3(f0, f1) => s' == SetCtl(s, p, Closing([f0, f1]))
       case Pipe4(f0, f1, fd0) => fd0 < |s.procs[p].ofile| && s' == SetSlot(s, p, fd0, None, Closing([f0, f1]))
       case _ => false
  }

  /** sys_open fills the file in. */
  predicate Fill(s: State, s': State, p: nat, r: bool, w: bool) {
    && p < |s.procs| && s.procs[p].ctl.Filling? && s.procs[p].ctl.f < |s.files|
    && var f := s.procs[p].ctl.f;
    s' == SetCtl(s.(files := s.files[f := s.files[f].(kind := FdInode, readable := r, writable := w)]), p, Idle)
  }

  /** filedup, the end of sys_dup; panics when the file has no reference. */
  predicate Dup(s: State, s': State, p: nat) {
    && p < |s.procs| && s.procs[p].ctl.Duping? && s.procs[p].ctl.f < |s.files|
    && s' == SetCtl(SetRef(s, s.procs[p].ctl.f, s.files[s.procs[p].ctl.f].ref + 1), p, Idle)
  }

  /** fork gives a new process one of its parent's descriptors. */
  predicate Inherit(s: State, s': State, p: nat, child: nat, fd: nat) {
    && p < |s.procs| && child < |s.procs| && p != child && s.procs[p].ctl.Idle? && s.procs[child].ctl.Idle?
    && fd < |s.procs[p].ofile| && fd < |s.procs[child].ofile| && s.procs[child].ofile[fd] == None
    && s.procs[p].ofile[fd].Some? && s.procs[p].ofile[fd].value < |s.files|
    && var f := s.procs[p].ofile[fd].value;
    s' == SetSlot(SetRef(s, f, s.files[f].ref + 1), child, fd, Some(f), Idle)
  }

  /** sys_close clears the descriptor. */
  predicate Close(s: State, s': State, p: nat, fd: nat) {
    && p < |s.procs| && s.procs[p].ctl.Idle? && fd < |s.procs[p].ofile| && s.procs[p].ofile[fd].Some?
    && s' == SetSlot(s, p, fd, None, Closing([s.procs[p].ofile[fd].value]))
  }

  /** exit's loop reaches a descriptor in use. */
  predicate Exit(s: State, s': State, p: nat, fd: nat) {
    && p < |s.procs| && s.procs[p].ctl.Idle? && fd < |s.procs[p].ofile| && s.procs[p].ofile[fd].Some?
    && s' == SetCtl(s, p, Exiting(fd, s.procs[p].ofile[fd].value))
  }

  /** It clears the descriptor after fileclose has returned. */
  predicate Clear(s: State, s': State, p: nat) {
    && p < |s.procs| && s.procs[p].ctl.Stale? && s.procs[p].ctl.fd < |s.procs[p].ofile|
    && s' == SetSlot(s, p, s.procs[p].ctl.fd, None, Idle)
  }

  /** The process is to call fileclose. */
  predicate Closer(c: Ctl) {
    (c.Closing? && c.fs != []) || c.Exiting?
  }

  /** On this file. */
  function Target(c: Ctl): nat
    requires Closer(c)
  {
    if c.Closing? then c.fs[0] else c.f
  }

  /** And is here when fileclose has returned. */
  function After(c: Ctl): Ctl
    requires Closer(c)
  {
    if c.Closing? then Closed(c.fs[1..]) else Stale(c.fd, c.f)
  }

  /** fileclose under ftable.lock; panics when the file has no reference. */
  predicate FileClose(s: State, s': State, p: nat) {
    && p < |s.procs| && Closer(s.procs[p].ctl) && Target(s.procs[p].ctl) < |s.files|
    && var f, next := Target(s.procs[p].ctl), After(s.procs[p].ctl);
    var ff := s.files[f];
    if ff.ref - 1 > 0 then s' == SetCtl(SetRef(s, f, ff.ref - 1), p, next)
    else
      var s1 := s.(files := s.files[f := ff.(ref := 0, kind := FdNone)]);
      s' == SetCtl(s1, p, if ff.kind == FdPipe then Shutting(ff.pipe, ff.writable, next) else next)
  }

  /** pipeclose; the pipe is freed with its second end. */
  predicate PipeClose(s: State, s': State, p: nat) {
    && p < |s.procs| && s.procs[p].ctl.Shutting? && s.procs[p].ctl.q in s.pipes
    && var q, w, next := s.procs[p].ctl.q, s.procs[p].ctl.w, s.procs[p].ctl.next;
    var e := Shut(s.pipes[q], w);
    var s1 := if !e.readopen && !e.writeopen then s.(pipes := s.pipes - {q}, freed := s.freed + [q])
              else s.(pipes := s.pipes[q := e]);
    s' == SetCtl(s1, p, next)
  }

  /** The rest of pipealloc: a new pipe with both ends open, or kalloc fails. */
  predicate MakePipe(s: State, s': State, p: nat) {
    && p < |s.procs| && s.procs[p].ctl.Pipe2?
    && var f0, f1 := s.procs[p].ctl.f0, s.procs[p].ctl.f1;
    && f0 < |s.files| && f1 < |s.files|
    && (|| s' == SetCtl(s, p, Closing([f0, f1]))
        || s' == SetCtl(s.(files := s.files[f0 := s.files[f0].(kind := FdPipe, readable := true, writable := false, pipe := s.made)]
                        [f1 := s.files[f1].(kind := FdPipe, readable := false, writable := true, pipe := s.made)],
                        pipes := s.pipes[s.made := Ends(true, true)], made := s.made + 1), p, Pipe3(f0, f1)))
  }

  /** sys_read or sys_write finds the file of a descriptor to be an end of a pipe, and calls piperead or pipewrite. */
  predicate Enter(s: State, s': State, p: nat, fd: nat) {
    && p < |s.procs| && s.procs[p].ctl.Idle? && fd < |s.procs[p].ofile| && s.procs[p].ofile[fd].Some?
    && s.procs[p].ofile[fd].value < |s.files|
    && var f := s.procs[p].ofile[fd].value;
    && s.files[f].kind == FdPipe && s' == SetCtl(s, p, InPipe(fd, f, s.files[f].pipe, s.files[f].writable))
  }

  /** The call returns. */
  predicate Leave(s: State, s': State, p: nat) {
    p < |s.procs| && s.procs[p].ctl.InPipe? && s' == SetCtl(s, p, Idle)
  }

  datatype Step =
    | AllocStep(p: nat, f: nat)
    | AllocFailsStep(p: nat)
    | GetSlotStep(p: nat, fd: nat, src: nat)
    | NoSlotStep(p: nat)
    | FillStep(p: nat, r: bool, w: bool)
    | DupStep(p: nat)
    | InheritStep(p: nat, child: nat, fd: nat)
    | CloseStep(p: nat, fd: nat)
    | ExitStep(p: nat, fd: nat)
    | ClearStep(p: nat)
    | FileCloseStep(p: nat)
    | PipeCloseStep(p: nat)
    | MakePipeStep(p: nat)
    | EnterStep(p: nat, fd: nat)
    | LeaveStep(p: nat)

  predicate StepBy(s: State, s': State, a: Step) {
    match a
    case AllocStep(p, f) => Alloc(s, s', p, f)
    case AllocFailsStep(p) => AllocFails(s, s', p)
    case GetSlotStep(p, fd, src) => GetSlot(s, s', p, fd, src)
    case NoSlotStep(p) => NoSlotLeft(s, s', p)
    case FillStep(p, r, w) => Fill(s, s', p, r, w)
    case DupStep(p) => Dup(s, s', p)
    case InheritStep(p, child, fd) => Inherit(s, s', p, child, fd)
    case CloseStep(p, fd) => Close(s, s', p, fd)
    case ExitStep(p, fd) => Exit(s, s', p, fd)
    case ClearStep(p) => Clear(s, s', p)
    case FileCloseStep(p) => FileClose(s, s', p)
    case PipeCloseStep(p) => PipeClose(s, s', p)
    case MakePipeStep(p) => MakePipe(s, s', p)
    case EnterStep(p, fd) => Enter(s, s', p, fd)
    case LeaveStep(p) => Leave(s, s', p)
  }

  ghost predicate IsRun(run: seq<State>, steps: seq<Step>) {
    && |run| == |steps| + 1
    && (exists nfile: nat, nproc: nat, nofile: nat :: run[0] == Init(nfile, nproc, nofile))
    && forall i :: 0 <= i < |steps| ==> StepBy(run[i], run[i + 1], steps[i])
  }

  // ---- counting references ----

  function Among(fs: seq<nat>, f: nat): nat {
    if fs == [] then 0 else (if fs[0] == f then 1 else 0) + Among(fs[1..], f)
  }

  function Is(a: nat, b: nat): int {
    if a == b then 1 else 0
  }

  lemma AmongFew(a: nat, b: nat, f: nat)
    ensures Among([a], f) == Is(a, f) && Among([a, b], f) == Is(a, f) + Is(b, f)
  {
    assert [a, b][1..] == [b] && [b][1..] == [];
    assert [a][1..] == [];
  }

  /** fileclose takes one reference from the process. */
  lemma AfterExtra(c: Ctl, f: nat)
    requires Closer(c)
    ensures Extra(After(c), f) == Extra(c, f) - Is(Target(c), f)
  {
    if c.Closing? { assert Among(c.fs, f) == Is(c.fs[0], f) + Among(c.fs[1..], f); }
  }

  /**
   References to f that a process holds outside its descriptors; negative while filedup
   is still to come, and while a descriptor still names a file that exit has closed.
   */
  function Extra(c: Ctl, f: nat): int {
    match c
    case Opened(g) => Is(g, f)
    case Duping(g, _, _) => -Is(g, f)
    case Closing(fs) => Among(fs, f)
    case Shutting(_, _, next) => Extra(next, f)
    case Stale(_, g) => -Is(g, f)
    case Pipe1(f0) => Is(f0, f)
    case Pipe2(f0, f1) => Is(f0, f) + Is(f1, f)
    case Pipe3(f0, f1) => Is(f0, f) + Is(f1, f)
    case Pipe4(_, f1, _) => Is(f1, f)
    case _ => 0
  }

  function RefsOf(r: Proc, f: nat): int {
    Slots(r.ofile, f) + Extra(r.ctl, f)
  }

  /** All references to f. */
  function Uses(procs: seq<Proc>, f: nat): int {
    if procs == [] then 0
    else Uses(procs[..|procs| - 1], f) + RefsOf(procs[|procs| - 1], f)
  }

  lemma {:induction false} UsesUpdate(procs: seq<Proc>, p: nat, r: Proc, f: nat)
    requires p < |procs|
    ensures Uses(procs[p := r], f) == Uses(procs, f) - RefsOf(procs[p], f) + RefsOf(r, f)
  {
    var n := |procs| - 1;
    if p == n {
      assert procs[p := r][..n] == procs[..n];
    } else {
      assert procs[p := r][..n] == procs[..n][p := r];
      UsesUpdate(procs[..n], p, r, f);
    }
  }

  /** What holds of a process, given the number of files. */
  ghost predicate ProcInv(r: Proc, nfile: nat) {
    && (forall k :: 0 <= k < |r.ofile| && r.ofile[k].Some? ==> r.ofile[k].value < nfile)
    && CtlInv(r.ofile, r.ctl, nfile)
  }

  predicate Names(ofile: seq<Option<nat>>, fd: nat, f: nat) {
    fd < |ofile| && ofile[fd] == Some(f)
  }

  ghost predicate CtlInv(ofile: seq<Option<nat>>, c: Ctl, nfile: nat) {
    match c
    case Idle => true
    case Opened(f) => f < nfile
    case Filling(f, fd) => f < nfile && Names(ofile, fd, f)
    case Duping(f, src, dst) => f < nfile && src != dst && Names(ofile, src, f) && Names(ofile, dst, f)
    case Closing(fs) => fs != [] && forall k :: 0 <= k < |fs| ==> fs[k] < nfile
    case Exiting(fd, f) => f < nfile && Names(ofile, fd, f)
    case Stale(fd, f) => f < nfile && Names(ofile, fd, f)
    case Shutting(_, _, next) => (next.Idle? || next.Closing? || next.Stale?) && CtlInv(ofile, next, nfile)
    case Pipe1(f0) => f0 < nfile
    case Pipe2(f0, f1) => f0 < nfile && f1 < nfile && f0 != f1
    case Pipe3(f0, f1) => f0 < nfile && f1 < nfile
    case Pipe4(f0, f1, fd0) => f0 < nfile && f1 < nfile && Names(ofile, fd0, f0)
    case InPipe(fd, f, _, _) => f < nfile && Names(ofile, fd, f)
  }

  /** A descriptor names a file that is closed already. */
  predicate HasStale(c: Ctl) {
    c.Stale? || (c.Shutting? && c.next.Stale?)
  }

  function StaleFd(c: Ctl): nat
    requires HasStale(c)
  {
    if c.Stale? then c.fd else c.next.fd
  }

  /** A file that a call has taken and not yet filled in. */
  predicate Private(c: Ctl, f: nat) {
    match c
    case Opened(g) => g == f
    case Filling(g, _) => g == f
    case Pipe1(f0) => f0 == f
    case Pipe2(f0, f1) => f0 == f || f1 == f
    case _ => false
  }

  /** No process holds a negative number of references; one in sys_dup holds at least the one it copies. */
  lemma RefsNotNegative(r: Proc, nfile: nat, f: nat)
    requires ProcInv(r, nfile)
    ensures RefsOf(r, f) >= 0
    ensures !HasStale(r.ctl) && (exists k :: 0 <= k < |r.ofile| && r.ofile[k] == Some(f)) ==> RefsOf(r, f) >= 1
    ensures Private(r.ctl, f) || (Closer(r.ctl) && Target(r.ctl) == f) ==> RefsOf(r, f) >= 1
  {
    assert r.ctl.Shutting? ==> CtlInv(r.ofile, r.ctl.next, nfile) && Extra(r.ctl, f) == Extra(r.ctl.next, f);
    if r.ctl.Duping? && r.ctl.f == f {
      SlotsUpdate(r.ofile, r.ctl.src, None, f);
      SlotCounts(r.ofile[r.ctl.src := None], r.ctl.dst, f);
    } else if HasStale(r.ctl) && Names(r.ofile, StaleFd(r.ctl), f) {
      SlotCounts(r.ofile, StaleFd(r.ctl), f);
    } else if k :| 0 <= k < |r.ofile| && r.ofile[k] == Some(f) {
      SlotCounts(r.ofile, k, f);
    }
  }

  ghost predicate ProcsInv(procs: seq<Proc>, nfile: nat) {
    forall p :: 0 <= p < |procs| ==> ProcInv(procs[p], nfile)
  }

  lemma {:induction false} UsesAtLeast(procs: seq<Proc>, nfile: nat, p: nat, f: nat)
    requires ProcsInv(procs, nfile) && p < |procs|
    ensures Uses(procs, f) >= RefsOf(procs[p], f) >= 0
  {
    var n := |procs| - 1;
    RefsNotNegative(procs[n], nfile, f);
    if p < n {
      UsesAtLeast(procs[..n], nfile, p, f);
    } else {
      UsesNotNegative(procs[..n], nfile, f);
    }
  }

  lemma {:induction false} UsesNotNegative(procs: seq<Proc>, nfile: nat, f: nat)
    requires ProcsInv(procs, nfile)
    ensures Uses(procs, f) >= 0
  {
    if procs != [] {
      RefsNotNegative(procs[|procs| - 1], nfile, f);
      UsesNotNegative(procs[..|procs| - 1], nfile, f);
    }
  }

  /** Two processes with a reference each make two references. */
  lemma {:induction false} UsesOfTwo(procs: seq<Proc>, nfile: nat, p: nat, q: nat, f: nat)
    requires ProcsInv(procs, nfile) && p < q < |procs|
    ensures Uses(procs, f) >= RefsOf(procs[p], f) + RefsOf(procs[q], f)
  {
    var n := |procs| - 1;
    RefsNotNegative(procs[n], nfile, f);
    if q < n {
      UsesOfTwo(procs[..n], nfile, p, q, f);
    } else {
      UsesAtLeast(procs[..n], nfile, p, f);
    }
  }

  // ---- every step keeps the counts ----

  ghost predicate PrivateOk(s: State, c: Ctl) {
    forall f :: 0 <= f < |s.files| && Private(c, f) ==> s.files[f].ref == 1 && s.files[f].kind == FdNone
  }

  /** Each reference is counted, an unused file is empty, a file being filled in is nobody else's. */
  ghost predicate RefInv(s: State) {
    && ProcsInv(s.procs, |s.files|)
    && (forall f :: 0 <= f < |s.files| ==> s.files[f].ref == Uses(s.procs, f))
    && (forall f :: 0 <= f < |s.files| && s.files[f].ref == 0 ==> s.files[f].kind == FdNone)
    && (forall p :: 0 <= p < |s.procs| ==> PrivateOk(s, s.procs[p].ctl))
  }

  /** A file private to q is not referred to by another process. */
  lemma NotMine(s: State, p: nat, q: nat, f: nat)
    requires RefInv(s) && p < |s.procs| && q < |s.procs| && p != q && f < |s.files| && Private(s.procs[q].ctl, f)
    ensures RefsOf(s.procs[p], f) == 0
  {
    RefsNotNegative(s.procs[q], |s.files|, f);
    RefsNotNegative(s.procs[p], |s.files|, f);
    if p < q { UsesOfTwo(s.procs, |s.files|, p, q, f); } else { UsesOfTwo(s.procs, |s.files|, q, p, f); }
    assert PrivateOk(s, s.procs[q].ctl);
  }

  /** Only files that p refers to, or that are free, change; p's own references account for the change. */
  ghost predicate Accounted(s: State, s': State, p: nat, r: Proc)
    requires p < |s.procs|
  {
    && s'.procs == s.procs[p := r] && |s'.files| == |s.files| && ProcInv(r, |s.files|)
    && (forall f :: 0 <= f < |s.files| ==> s'.files[f].ref == s.files[f].ref - RefsOf(s.procs[p], f) + RefsOf(r, f))
    && (forall f :: 0 <= f < |s.files| && s'.files[f].ref == 0 ==> s'.files[f].kind == FdNone)
    && (forall f :: 0 <= f < |s.files| && s'.files[f] != s.files[f] ==> s.files[f].ref == 0 || RefsOf(s.procs[p], f) > 0)
    && PrivateOk(s', r.ctl)
  }

  lemma AccountedInv(s: State, s': State, p: nat, r: Proc)
    requires RefInv(s) && p < |s.procs| && Accounted(s, s', p, r)
    ensures RefInv(s')
  {
    forall f | 0 <= f < |s.files|
      ensures s'.files[f].ref == Uses(s'.procs, f)
    {
      UsesUpdate(s.procs, p, r, f);
    }
    forall q | 0 <= q < |s'.procs|
      ensures PrivateOk(s', s'.procs[q].ctl)
    {
      if q != p {
        assert PrivateOk(s, s.procs[q].ctl);
        forall f | 0 <= f < |s.files| && Private(s.procs[q].ctl, f)
          ensures s'.files[f] == s.files[f]
        {
          NotMine(s, p, q, f);
        }
      }
    }
  }

  lemma AllocInv(s: State, s': State, p: nat, f: nat)
    requires RefInv(s) && Alloc(s, s', p, f)
    ensures RefInv(s')
  {
    UsesAtLeast(s.procs, |s.files|, p, f);
    RefsNotNegative(s.procs[p], |s.files|, f);
    assert PrivateOk(s, s.procs[p].ctl);
    AccountedInv(s, s', p, s'.procs[p]);
  }

  lemma AllocFailsInv(s: State, s': State, p: nat)
    requires RefInv(s) && AllocFails(s, s', p)
    ensures RefInv(s')
  {
    var f0 := s.procs[p].ctl.f0;
    forall f | 0 <= f < |s.files|
      ensures RefsOf(s'.procs[p], f) == RefsOf(s.procs[p], f)
    {
      AmongFew(f0, f0, f);
    }
    AccountedInv(s, s', p, s'.procs[p]);
  }

  lemma GetSlotInv(s: State, s': State, p: nat, fd: nat, src: nat)
    requires RefInv(s) && GetSlot(s, s', p, fd, src)
    ensures RefInv(s')
  {
    forall f | 0 <= f < |s.files|
      ensures RefsOf(s'.procs[p], f) == RefsOf(s.procs[p], f)
    {
      SlotsUpdate(s.procs[p].ofile, fd, s'.procs[p].ofile[fd], f);
    }
    assert PrivateOk(s, s.procs[p].ctl);
    AccountedInv(s, s', p, s'.procs[p]);
  }

  lemma NoSlotInv(s: State, s': State, p: nat)
    requires RefInv(s) && NoSlotLeft(s, s', p)
    ensures RefInv(s')
  {
    forall f | 0 <= f < |s.files|
      ensures RefsOf(s'.procs[p], f) == RefsOf(s.procs[p], f)
    {
      match s.procs[p].ctl
      case Opened(f0) => AmongFew(f0, f0, f);
      case Pipe3(f0, f1) => AmongFew(f0, f1, f);
      case Pipe4(f0, f1, fd0) =>
        AmongFew(f0, f1, f);
        SlotsUpdate(s.procs[p].ofile, fd0, None, f);
    }
    AccountedInv(s, s', p, s'.procs[p]);
  }

  lemma FillInv(s: State, s': State, p: nat, r: bool, w: bool)
    requires RefInv(s) && Fill(s, s', p, r, w)
    ensures RefInv(s')
  {
    assert PrivateOk(s, s.procs[p].ctl);
    RefsNotNegative(s.procs[p], |s.files|, s.procs[p].ctl.f);
    AccountedInv(s, s', p, s'.procs[p]);
  }

  lemma DupInv(s: State, s': State, p: nat)
    requires RefInv(s) && Dup(s, s', p)
    ensures RefInv(s') && s.files[s.procs[p].ctl.f].ref >= 1
  {
    var f := s.procs[p].ctl.f;
    RefsNotNegative(s.procs[p], |s.files|, f);
    UsesAtLeast(s.procs, |s.files|, p, f);
    AccountedInv(s, s', p, s'.procs[p]);
  }

  lemma CloseInv(s: State, s': State, p: nat, fd: nat)
    requires RefInv(s) && Close(s, s', p, fd)
    ensures RefInv(s')
  {
    forall f | 0 <= f < |s.files|
      ensures RefsOf(s'.procs[p], f) == RefsOf(s.procs[p], f)
    {
      SlotsUpdate(s.procs[p].ofile, fd, None, f);
      AmongFew(s.procs[p].ofile[fd].value, 0, f);
    }
    AccountedInv(s, s', p, s'.procs[p]);
  }

  lemma ExitInv(s: State, s': State, p: nat, fd: nat)
    requires RefInv(s) && Exit(s, s', p, fd)
    ensures RefInv(s')
  {
    AccountedInv(s, s', p, s'.procs[p]);
  }

  lemma ClearInv(s: State, s': State, p: nat)
    requires RefInv(s) && Clear(s, s', p)
    ensures RefInv(s')
  {
    forall f | 0 <= f < |s.files|
      ensures RefsOf(s'.procs[p], f) == RefsOf(s.procs[p], f)
    {
      SlotsUpdate(s.procs[p].ofile, s.procs[p].ctl.fd, None, f);
    }
    AccountedInv(s, s', p, s'.procs[p]);
  }

  lemma FileCloseInv(s: State, s': State, p: nat)
    requires RefInv(s) && FileClose(s, s', p)
    ensures RefInv(s') && s.files[Target(s.procs[p].ctl)].ref >= 1
  {
    var f := Target(s.procs[p].ctl);
    RefsNotNegative(s.procs[p], |s.files|, f);
    UsesAtLeast(s.procs, |s.files|, p, f);
    forall g | 0 <= g < |s.files|
      ensures RefsOf(s'.procs[p], g) == RefsOf(s.procs[p], g) - Is(f, g)
    {
      AfterExtra(s.procs[p].ctl, g);
    }
    AccountedInv(s, s', p, s'.procs[p]);
  }

  lemma PipeCloseInv(s: State, s': State, p: nat)
    requires RefInv(s) && PipeClose(s, s', p)
    ensures RefInv(s')
  {
    forall g | 0 <= g < |s.files|
      ensures RefsOf(s'.procs[p], g) == RefsOf(s.procs[p], g)
    {
    }
    AccountedInv(s, s', p, s'.procs[p]);
  }

  lemma MakePipeInv(s: State, s': State, p: nat)
    requires RefInv(s) && MakePipe(s, s', p)
    ensures RefInv(s')
  {
    assert PrivateOk(s, s.procs[p].ctl);
    RefsNotNegative(s.procs[p], |s.files|, s.procs[p].ctl.f0);
    RefsNotNegative(s.procs[p], |s.files|, s.procs[p].ctl.f1);
    forall g | 0 <= g < |s.files|
      ensures RefsOf(s'.procs[p], g) == RefsOf(s.procs[p], g)
    {
      AmongFew(s.procs[p].ctl.f0, s.procs[p].ctl.f1, g);
    }
    AccountedInv(s, s', p, s'.procs[p]);
  }

  lemma InheritInv(s: State, s': State, p: nat, child: nat, fd: nat)
    requires RefInv(s) && Inherit(s, s', p, child, fd)
    ensures RefInv(s') && s.files[s.procs[p].ofile[fd].value].ref >= 1
  {
    var f := s.procs[p].ofile[fd].value;
    RefsNotNegative(s.procs[p], |s.files|, f);
    UsesAtLeast(s.procs, |s.files|, p, f);
    forall g | 0 <= g < |s.files|
      ensures s'.files[g].ref == Uses(s'.procs, g)
    {
      SlotsUpdate(s.procs[child].ofile, fd, Some(f), g);
      UsesUpdate(s.procs, child, s'.procs[child], g);
    }
    forall q | 0 <= q < |s'.procs|
      ensures PrivateOk(s', s'.procs[q].ctl)
    {
      assert PrivateOk(s, s.procs[q].ctl);
      assert s'.procs[q].ctl == s.procs[q].ctl;
      if q != p && Private(s.procs[q].ctl, f) {
        NotMine(s, p, q, f);
      }
    }
  }

  // ---- who holds which end of a pipe ----

  datatype Holder = OfFile(f: nat) | OfProc(p: nat)

  /** A file names this end, or a process is about to close it. */
  predicate Holds(s: State, h: Holder, q: nat, w: bool) {
    match h
    case OfFile(f) => f < |s.files| && s.files[f].kind == FdPipe && s.files[f].pipe == q && s.files[f].writable == w
    case OfProc(p) => p < |s.procs| && s.procs[p].ctl.Shutting? && s.procs[p].ctl.q == q && s.procs[p].ctl.w == w
  }

  /** Each open end of an allocated pipe has exactly one holder, and nothing else names a pipe. */
  ghost predicate HolderInv(s: State) {
    && (forall h, k, q, w :: Holds(s, h, q, w) && Holds(s, k, q, w) ==> h == k)
    && (forall h, q, w :: Holds(s, h, q, w) ==> q in s.pipes && Open(s.pipes[q], w))
    && (forall q, w :: q in s.pipes && Open(s.pipes[q], w) ==> exists h :: Holds(s, h, q, w))
    && (forall q :: q in s.pipes ==> s.pipes[q].readopen || s.pipes[q].writeopen)
  }

  /** Every pipe made is allocated or freed, once. */
  ghost predicate FreedInv(s: State) {
    && (forall q :: q in s.pipes ==> q < s.made && q !in s.freed)
    && (forall q :: q in s.freed ==> q < s.made)
    && (forall q :: 0 <= q < s.made ==> q in s.pipes || q in s.freed)
    && (forall i, j :: 0 <= i < j < |s.freed| ==> s.freed[i] != s.freed[j])
  }

  /** A process inside a pipe call still has the file it called through. */
  ghost predicate CallInv(s: State) {
    forall p :: 0 <= p < |s.procs| && s.procs[p].ctl.InPipe?
                ==> Holds(s, OfFile(s.procs[p].ctl.f), s.procs[p].ctl.q, s.procs[p].ctl.w)
  }

  ghost predicate Inv(s: State) {
    RefInv(s) && HolderInv(s) && FreedInv(s) && CallInv(s)
  }

  /** Nothing about pipes changes. */
  lemma SameHolders(s: State, s': State)
    requires HolderInv(s) && FreedInv(s) && s'.pipes == s.pipes && s'.made == s.made && s'.freed == s.freed
    requires |s'.files| == |s.files| && |s'.procs| == |s.procs|
    requires forall f :: 0 <= f < |s.files| ==>
                           || (&& s'.files[f].kind == s.files[f].kind && s'.files[f].pipe == s.files[f].pipe
                               && s'.files[f].writable == s.files[f].writable)
                           || (s'.files[f].kind != FdPipe && s.files[f].kind != FdPipe)
    requires forall p :: 0 <= p < |s.procs| ==>
                           s'.procs[p].ctl == s.procs[p].ctl || (!s'.procs[p].ctl.Shutting? && !s.procs[p].ctl.Shutting?)
    ensures HolderInv(s') && FreedInv(s')
  {
    forall h, q, w
      ensures Holds(s', h, q, w) <==> Holds(s, h, q, w)
    {
    }
  }

  /** The last reference to a pipe's file goes: the closing process takes over its end. */
  lemma HandOver(s: State, s': State, p: nat, f: nat, q: nat, w: bool)
    requires HolderInv(s) && FreedInv(s) && s'.pipes == s.pipes && s'.made == s.made && s'.freed == s.freed
    requires Holds(s, OfFile(f), q, w) && Holds(s', OfProc(p), q, w)
    requires forall h, k, v :: h != OfFile(f) && h != OfProc(p) ==> (Holds(s', h, k, v) <==> Holds(s, h, k, v))
    requires forall k, v :: !Holds(s, OfProc(p), k, v) && !Holds(s', OfFile(f), k, v)
    requires forall k, v :: Holds(s', OfProc(p), k, v) ==> k == q && v == w
    ensures HolderInv(s') && FreedInv(s')
  {
    forall k, v | k in s'.pipes && Open(s'.pipes[k], v)
      ensures exists h :: Holds(s', h, k, v)
    {
      var h :| Holds(s, h, k, v);
      assert h != OfProc(p);
      if h == OfFile(f) {
        assert Holds(s', OfProc(p), k, v);
      } else {
        assert Holds(s', h, k, v);
      }
    }
  }

  /** What follows fileclose and pipeclose is no call on a pipe and no other pipeclose. */
  lemma NextIsOutside(s: State, p: nat)
    requires RefInv(s) && p < |s.procs|
    ensures Closer(s.procs[p].ctl) ==> !After(s.procs[p].ctl).Shutting?
    ensures s.procs[p].ctl.Shutting? ==> !s.procs[p].ctl.next.InPipe? && !s.procs[p].ctl.next.Shutting?
  {
    assert ProcInv(s.procs[p], |s.files|);
  }

  lemma FileCloseHolders(s: State, s': State, p: nat)
    requires Inv(s) && FileClose(s, s', p)
    ensures HolderInv(s') && FreedInv(s')
  {
    hide HolderInv, FreedInv, RefInv, CallInv, Extra, After;
    var f := Target(s.procs[p].ctl);
    var ff := s.files[f];
    FileCloseInv(s, s', p);
    NextIsOutside(s, p);
    if ff.ref - 1 > 0 || ff.kind != FdPipe {
      SameHolders(s, s');
    } else {
      HandOver(s, s', p, f, ff.pipe, ff.writable);
    }
  }

  /** One end shuts, and its holder lets go; the pipe goes when no end is left open. */
  lemma PipeCloseHolders(s: State, s': State, p: nat)
    requires Inv(s) && PipeClose(s, s', p)
    ensures HolderInv(s') && FreedInv(s')
  {
    hide RefInv, CallInv;
    NextIsOutside(s, p);
    var q, w := s.procs[p].ctl.q, s.procs[p].ctl.w;
    assert Holds(s, OfProc(p), q, w);
    forall h, k, v
      ensures Holds(s', h, k, v) <==> Holds(s, h, k, v) && h != OfProc(p)
    {
    }
    forall k, v | k in s'.pipes && Open(s'.pipes[k], v)
      ensures exists h :: Holds(s', h, k, v)
    {
      assert k in s.pipes && Open(s.pipes[k], v);
      var h :| Holds(s, h, k, v);
      assert k != q || v != w;
      assert Holds(s', h, k, v);
    }
    forall h, k, v | Holds(s', h, k, v)
      ensures k in s'.pipes && Open(s'.pipes[k], v)
    {
      assert Holds(s, h, k, v) && h != OfProc(p);
      assert k != q || v != w;
      assert k == q ==> Open(s.pipes[q], v) && Open(Shut(s.pipes[q], w), v);
    }
  }

  /** A new pipe: its two ends are held by its two files. */
  lemma MakePipeHolders(s: State, s': State, p: nat)
    requires Inv(s) && MakePipe(s, s', p)
    ensures HolderInv(s') && FreedInv(s')
  {
    var f0, f1 := s.procs[p].ctl.f0, s.procs[p].ctl.f1;
    assert PrivateOk(s, s.procs[p].ctl);
    assert s.files[f0].kind == FdNone && s.files[f1].kind == FdNone && f0 != f1;
    hide RefInv, PrivateOk;
    if s'.pipes == s.pipes && s'.made == s.made {
      SameHolders(s, s');
    } else {
      var n := s.made;
      forall h, k, v
        ensures Holds(s', h, k, v) <==>
                Holds(s, h, k, v) || (k == n && ((h == OfFile(f0) && !v) || (h == OfFile(f1) && v)))
      {
      }
      forall k, v | k in s'.pipes && Open(s'.pipes[k], v)
        ensures exists h :: Holds(s', h, k, v)
      {
        if k == n {
          assert Holds(s', if v then OfFile(f1) else OfFile(f0), k, v);
        } else {
          var h :| Holds(s, h, k, v);
          assert Holds(s', h, k, v);
        }
      }
    }
  }

  /** Steps that take a file or a descriptor leave the pipes alone. */
  lemma TakeHolders(s: State, s': State, a: Step)
    requires Inv(s) && StepBy(s, s', a) && (a.AllocStep? || a.AllocFailsStep? || a.GetSlotStep? || a.NoSlotStep?)
    ensures HolderInv(s') && FreedInv(s')
  {
    hide HolderInv, FreedInv, RefInv;
    SameHolders(s, s');
  }

  lemma OtherHolders(s: State, s': State, a: Step)
    requires Inv(s) && StepBy(s, s', a)
    requires a.FillStep? || a.DupStep? || a.InheritStep? || a.CloseStep? || a.ExitStep? || a.ClearStep? || a.EnterStep? || a.LeaveStep?
    ensures HolderInv(s') && FreedInv(s')
  {
    assert a.FillStep? ==> PrivateOk(s, s.procs[a.p].ctl);
    hide HolderInv, FreedInv, RefInv;
    SameHolders(s, s');
  }

  lemma CallStepInv(s: State, s': State, a: Step)
    requires RefInv(s) && StepBy(s, s', a) && (a.EnterStep? || a.LeaveStep?)
    ensures RefInv(s')
  {
    forall f | 0 <= f < |s.files|
      ensures RefsOf(s'.procs[a.p], f) == RefsOf(s.procs[a.p], f)
    {
    }
    AccountedInv(s, s', a.p, s'.procs[a.p]);
  }

  /** A file that q refers to keeps its pipe whatever another process does. */
  lemma FileKept(s: State, s': State, a: Step, q: nat, f: nat)
    requires RefInv(s) && StepBy(s, s', a) && q < |s.procs| && q != a.p && f < |s.files| && RefsOf(s.procs[q], f) >= 1
    ensures f < |s'.files| && s'.files[f].kind == s.files[f].kind
    ensures s'.files[f].pipe == s.files[f].pipe && s'.files[f].writable == s.files[f].writable
    ensures s'.files[f].readable == s.files[f].readable
  {
    hide RefInv, RefsOf, NoneFree, IsSlot, NoSlot, Shut, Closed;
    Referred(s, q, f);
    match a
    case FillStep(p, r, w) =>
      if s.procs[p].ctl.f == f { NotMine(s, q, p, f); }
    case MakePipeStep(p) =>
      if Private(s.procs[p].ctl, f) { NotMine(s, q, p, f); }
    case FileCloseStep(p) =>
      if Target(s.procs[p].ctl) == f { ReferredTwice(s, p, q, f); }
    case _ =>
  }

  lemma Referred(s: State, q: nat, f: nat)
    requires RefInv(s) && q < |s.procs| && f < |s.files| && RefsOf(s.procs[q], f) >= 1
    ensures s.files[f].ref >= 1
  {
    UsesAtLeast(s.procs, |s.files|, q, f);
  }

  lemma ReferredTwice(s: State, p: nat, q: nat, f: nat)
    requires RefInv(s) && p < |s.procs| && q < |s.procs| && p != q && f < |s.files| && RefsOf(s.procs[q], f) >= 1
    requires Closer(s.procs[p].ctl) && Target(s.procs[p].ctl) == f
    ensures s.files[f].ref >= 2
  {
    RefsNotNegative(s.procs[p], |s.files|, f);
    if p < q { UsesOfTwo(s.procs, |s.files|, p, q, f); } else { UsesOfTwo(s.procs, |s.files|, q, p, f); }
  }

  lemma CallsKept(s: State, s': State, a: Step)
    requires RefInv(s) && CallInv(s) && StepBy(s, s', a)
    ensures CallInv(s')
  {
    forall q | 0 <= q < |s'.procs| && s'.procs[q].ctl.InPipe?
      ensures Holds(s', OfFile(s'.procs[q].ctl.f), s'.procs[q].ctl.q, s'.procs[q].ctl.w)
    {
      if q != a.p {
        CallerRefers(s, s', a, q);
        FileKept(s, s', a, q, s.procs[q].ctl.f);
      } else {
        OnlyEnterStarts(s, s', a);
      }
    }
  }

  lemma CallerRefers(s: State, s': State, a: Step, q: nat)
    requires RefInv(s) && StepBy(s, s', a) && q < |s'.procs| && q != a.p && s'.procs[q].ctl.InPipe?
    ensures q < |s.procs| && s.procs[q].ctl == s'.procs[q].ctl
    ensures s.procs[q].ctl.f < |s.files| && RefsOf(s.procs[q], s.procs[q].ctl.f) >= 1
  {
    hide IsFree, NoneFree, IsSlot, NoSlot, Shut, Closed, RefsOf, Uses, PrivateOk;
    RefsNotNegative(s.procs[q], |s.files|, s'.procs[q].ctl.f);
  }

  lemma OnlyEnterStarts(s: State, s': State, a: Step)
    requires RefInv(s) && StepBy(s, s', a) && a.p < |s'.procs| && s'.procs[a.p].ctl.InPipe?
    ensures Holds(s', OfFile(s'.procs[a.p].ctl.f), s'.procs[a.p].ctl.q, s'.procs[a.p].ctl.w)
  {
    hide RefInv, IsFree, NoneFree, IsSlot, NoSlot, Shut;
    if a.p < |s.procs| { NextIsOutside(s, a.p); }
  }

  lemma StepInv(s: State, s': State, a: Step)
    requires Inv(s) && StepBy(s, s', a)
    ensures Inv(s')
  {
    hide RefInv, HolderInv, FreedInv, CallInv;
    CallsKept(s, s', a);
    match a
    case EnterStep(p, fd) => CallStepInv(s, s', a); OtherHolders(s, s', a);
    case LeaveStep(p) => CallStepInv(s, s', a); OtherHolders(s, s', a);
    case AllocStep(p, f) => AllocInv(s, s', p, f); TakeHolders(s, s', a);
    case AllocFailsStep(p) => AllocFailsInv(s, s', p); TakeHolders(s, s', a);
    case GetSlotStep(p, fd, src) => GetSlotInv(s, s', p, fd, src); TakeHolders(s, s', a);
    case NoSlotStep(p) => NoSlotInv(s, s', p); TakeHolders(s, s', a);
    case FillStep(p, r, w) => FillInv(s, s', p, r, w); OtherHolders(s, s', a);
    case DupStep(p) => DupInv(s, s', p); OtherHolders(s, s', a);
    case InheritStep(p, child, fd) => InheritInv(s, s', p, child, fd); OtherHolders(s, s', a);
    case CloseStep(p, fd) => CloseInv(s, s', p, fd); OtherHolders(s, s', a);
    case ExitStep(p, fd) => ExitInv(s, s', p, fd); OtherHolders(s, s', a);
    case ClearStep(p) => ClearInv(s, s', p); OtherHolders(s, s', a);
    case FileCloseStep(p) => FileCloseInv(s, s', p); FileCloseHolders(s, s', p);
    case PipeCloseStep(p) => PipeCloseInv(s, s', p); PipeCloseHolders(s, s', p);
    case MakePipeStep(p) => MakePipeInv(s, s', p); MakePipeHolders(s, s', p);
  }

  lemma {:induction false} UsesOfNone(procs: seq<Proc>, f: nat)
    requires forall p, k :: 0 <= p < |procs| && 0 <= k < |procs[p].ofile| ==> procs[p].ofile[k] == None
    requires forall p :: 0 <= p < |procs| ==> procs[p].ctl.Idle?
    ensures Uses(procs, f) == 0
  {
    if procs != [] {
      NoSlots(procs[|procs| - 1].ofile, f);
      UsesOfNone(procs[..|procs| - 1], f);
    }
  }

  lemma InitInv(nfile: nat, nproc: nat, nofile: nat)
    ensures Inv(Init(nfile, nproc, nofile))
  {
    var s := Init(nfile, nproc, nofile);
    forall f: nat
      ensures Uses(s.procs, f) == 0
    {
      UsesOfNone(s.procs, f);
    }
  }

  lemma {:induction false} RunInv(run: seq<State>, steps: seq<Step>, i: nat)
    requires IsRun(run, steps) && i < |run|
    ensures Inv(run[i])
  {
    hide Inv, StepBy, Init;
    if i == 0 {
      var nfile: nat, nproc: nat, nofile: nat :| run[0] == Init(nfile, nproc, nofile);
      InitInv(nfile, nproc, nofile);
    } else {
      RunInv(run, steps, i - 1);
      StepInv(run[i - 1], run[i], steps[i - 1]);
    }
  }

  // ---- what every run guarantees ----

  /** How many descriptors of all processes name f. */
  function AllSlots(procs: seq<Proc>, f: nat): nat {
    if procs == [] then 0 else AllSlots(procs[..|procs| - 1], f) + Slots(procs[|procs| - 1].ofile, f)
  }

  lemma {:induction false} UsesWhenIdle(procs: seq<Proc>, f: nat)
    requires forall p :: 0 <= p < |procs| ==> procs[p].ctl.Idle?
    ensures Uses(procs, f) == AllSlots(procs, f)
  {
    if procs != [] { UsesWhenIdle(procs[..|procs| - 1], f); }
  }

  /** When no process is inside a call, a file's count is the number of descriptors that name it. */
  lemma RefsAreDescriptors(run: seq<State>, steps: seq<Step>, i: nat, f: nat)
    requires IsRun(run, steps) && i < |run| && f < |run[i].files|
    requires forall p :: 0 <= p < |run[i].procs| ==> run[i].procs[p].ctl.Idle?
    ensures run[i].files[f].ref == AllSlots(run[i].procs, f)
    ensures run[i].files[f].ref == 0 ==> run[i].files[f].kind == FdNone
  {
    hide StepBy;
    RunInv(run, steps, i);
    UsesWhenIdle(run[i].procs, f);
  }

  /** The first process opens a file. */
  lemma OpenOne() returns (s1: State, s2: State, s3: State)
    ensures StepBy(Init(1, 2, 1), s1, AllocStep(0, 0)) && StepBy(s1, s2, GetSlotStep(0, 0, 0))
    ensures StepBy(s2, s3, FillStep(0, true, false))
    ensures s3.files == [File(1, FdInode, true, false, 0)] && s3.procs == [Proc([Some(0)], Idle), Proc([None], Idle)]
  {
    var s0 := Init(1, 2, 1);
    s1 := SetCtl(SetRef(s0, 0, 1), 0, Opened(0));
    s2 := SetSlot(s1, 0, 0, Some(0), Filling(0, 0));
    s3 := SetCtl(s2.(files := s2.files[0 := s2.files[0].(kind := FdInode, readable := true, writable := false)]), 0, Idle);
    assert s3.procs[0].ofile == [Some(0)] && s3.procs[1].ofile == [None];
  }

  /** It closes the file in exit, and the second process is given the same file. */
  lemma ExitOne(s3: State) returns (s4: State, s5: State, s6: State)
    requires s3.files == [File(1, FdInode, true, false, 0)] && s3.procs == [Proc([Some(0)], Idle), Proc([None], Idle)]
    ensures StepBy(s3, s4, ExitStep(0, 0)) && StepBy(s4, s5, FileCloseStep(0)) && StepBy(s5, s6, AllocStep(1, 0))
    ensures s6.procs == [Proc([Some(0)], Stale(0, 0)), Proc([None], Opened(0))] && |s6.files| == 1 && s6.files[0].ref == 1
  {
    s4 := SetCtl(s3, 0, Exiting(0, 0));
    s5 := SetCtl(s4.(files := s4.files[0 := s4.files[0].(ref := 0, kind := FdNone)]), 0, Stale(0, 0));
    s6 := SetCtl(SetRef(s5, 0, 1), 1, Opened(0));
  }

  /**
   A run that ends inside exit, between fileclose and the clearing of the descriptor: the
   descriptor names a file that another process has been given in the meantime.
   */
  lemma ReusedUnderExit() returns (run: seq<State>, steps: seq<Step>)
    ensures IsRun(run, steps) && run[|steps|].procs == [Proc([Some(0)], Stale(0, 0)), Proc([None], Opened(0))]
    ensures |run[|steps|].files| == 1 && run[|steps|].files[0].ref == 1
  {
    hide StepBy, Init;
    var s1, s2, s3 := OpenOne();
    var s4, s5, s6 := ExitOne(s3);
    run := [Init(1, 2, 1), s1, s2, s3, s4, s5, s6];
    steps := [AllocStep(0, 0), GetSlotStep(0, 0, 0), FillStep(0, true, false), ExitStep(0, 0), FileCloseStep(0), AllocStep(1, 0)];
  }

  /** No file ever names a freed pipe, and no process about to call pipeclose does. */
  lemma NoUseAfterFree(run: seq<State>, steps: seq<Step>, i: nat)
    requires IsRun(run, steps) && i < |run|
    ensures forall f :: 0 <= f < |run[i].files| && run[i].files[f].kind == FdPipe ==>
                          run[i].files[f].pipe in run[i].pipes && run[i].files[f].pipe !in run[i].freed
    ensures forall p :: 0 <= p < |run[i].procs| && run[i].procs[p].ctl.Shutting? ==>
                          run[i].procs[p].ctl.q in run[i].pipes && run[i].procs[p].ctl.q !in run[i].freed
  {
    hide StepBy, RefInv;
    RunInv(run, steps, i);
    var s := run[i];
    assert forall f :: 0 <= f < |s.files| && s.files[f].kind == FdPipe ==> Holds(s, OfFile(f), s.files[f].pipe, s.files[f].writable);
    assert forall p :: 0 <= p < |s.procs| && s.procs[p].ctl.Shutting? ==> Holds(s, OfProc(p), s.procs[p].ctl.q, s.procs[p].ctl.w);
  }

  /** A process inside piperead or pipewrite is on an allocated pipe with its own end open. */
  lemma InCallMeansOpen(run: seq<State>, steps: seq<Step>, i: nat, p: nat)
    requires IsRun(run, steps) && i < |run| && p < |run[i].procs| && run[i].procs[p].ctl.InPipe?
    ensures var q, w := run[i].procs[p].ctl.q, run[i].procs[p].ctl.w;
            q in run[i].pipes && q !in run[i].freed && Open(run[i].pipes[q], w)
  {
    hide StepBy, RefInv;
    RunInv(run, steps, i);
    assert Holds(run[i], OfFile(run[i].procs[p].ctl.f), run[i].procs[p].ctl.q, run[i].procs[p].ctl.w);
  }

  /** So nobody is inside a call on an end when pipeclose shuts it. */
  lemma NobodyInsideAtClose(run: seq<State>, steps: seq<Step>, i: nat, p: nat, r: nat)
    requires IsRun(run, steps) && i < |run| && p < |run[i].procs| && run[i].procs[p].ctl.Shutting?
    requires r < |run[i].procs| && run[i].procs[r].ctl.InPipe?
    ensures !(run[i].procs[r].ctl.q == run[i].procs[p].ctl.q && run[i].procs[r].ctl.w == run[i].procs[p].ctl.w)
  {
    hide StepBy, RefInv;
    RunInv(run, steps, i);
    assert Holds(run[i], OfProc(p), run[i].procs[p].ctl.q, run[i].procs[p].ctl.w);
    assert Holds(run[i], OfFile(run[i].procs[r].ctl.f), run[i].procs[r].ctl.q, run[i].procs[r].ctl.w);
  }

  /** A pipe is freed exactly when neither end has a holder left, and then once. */
  lemma FreedExactlyOnce(run: seq<State>, steps: seq<Step>, i: nat, q: nat)
    requires IsRun(run, steps) && i < |run| && q < run[i].made
    ensures q in run[i].freed <==> forall h, w :: !Holds(run[i], h, q, w)
    ensures forall j, k :: 0 <= j < k < |run[i].freed| ==> run[i].freed[j] != run[i].freed[k]
  {
    hide StepBy, RefInv;
    RunInv(run, steps, i);
    var s := run[i];
    if q !in s.freed {
      var w := s.pipes[q].writeopen;
      assert Open(s.pipes[q], w);
      var h :| Holds(s, h, q, w);
    }
  }

  // ---- what dup and pipe give a process, whatever others do meanwhile ----

  /** Nobody else touches a process that is inside a call. */
  lemma Undisturbed(s: State, s': State, a: Step, p: nat)
    requires StepBy(s, s', a) && p < |s.procs| && a.p != p && !s.procs[p].ctl.Idle?
    ensures p < |s'.procs| && s'.procs[p] == s.procs[p]
  {
    hide IsFree, NoneFree, IsSlot, NoSlot, Shut, Closed, After;
  }

  lemma {:induction false} InsideCall(run: seq<State>, steps: seq<Step>, i: nat, j: nat, p: nat)
    requires IsRun(run, steps) && i <= j < |run| && p < |run[i].procs| && !run[i].procs[p].ctl.Idle?
    requires forall k :: i <= k < j ==> steps[k].p != p
    ensures p < |run[j].procs| && run[j].procs[p] == run[i].procs[p]
    decreases j - i
  {
    hide StepBy;
    if i < j {
      InsideCall(run, steps, i, j - 1, p);
      Undisturbed(run[j - 1], run[j], steps[j - 1], p);
    }
  }

  /** sys_dup: the lowest free descriptor names the file of the one given, and no other changes. */
  lemma DupNamesTheSame(run: seq<State>, steps: seq<Step>, i: nat, j: nat, p: nat, fd: nat, src: nat)
    requires IsRun(run, steps) && i < j < |steps| && steps[i] == GetSlotStep(p, fd, src) && steps[j] == DupStep(p)
    requires p < |run[i].procs| && run[i].procs[p].ctl.Idle? && forall k :: i < k < j ==> steps[k].p != p
    ensures src < |run[i].procs[p].ofile| && run[i].procs[p].ofile[src].Some? && IsSlot(run[i].procs[p].ofile, fd)
    ensures p < |run[j + 1].procs|
    ensures run[j + 1].procs[p] == Proc(run[i].procs[p].ofile[fd := run[i].procs[p].ofile[src]], Idle)
  {
    assert GetSlot(run[i], run[i + 1], p, fd, src) by { assert StepBy(run[i], run[i + 1], steps[i]); }
    assert Dup(run[j], run[j + 1], p) by { assert StepBy(run[j], run[j + 1], steps[j]); }
    hide IsRun, StepBy;
    InsideCall(run, steps, i + 1, j, p);
  }

  /** f0 is the read end of a pipe, and f1 its write end. */
  predicate AreEnds(s: State, f0: nat, f1: nat) {
    && f0 < |s.files| && f1 < |s.files| && s.files[f0].kind == s.files[f1].kind == FdPipe && s.files[f0].pipe == s.files[f1].pipe
    && s.files[f0].readable && !s.files[f0].writable && !s.files[f1].readable && s.files[f1].writable
  }

  ghost predicate EndsInv(s: State) {
    forall p :: 0 <= p < |s.procs| && (s.procs[p].ctl.Pipe3? || s.procs[p].ctl.Pipe4?)
                ==> AreEnds(s, s.procs[p].ctl.f0, s.procs[p].ctl.f1)
  }

  lemma EndsStep(s: State, s': State, a: Step)
    requires RefInv(s) && EndsInv(s) && StepBy(s, s', a)
    ensures EndsInv(s')
  {
    hide RefInv;
    forall q | 0 <= q < |s'.procs| && (s'.procs[q].ctl.Pipe3? || s'.procs[q].ctl.Pipe4?)
      ensures AreEnds(s', s'.procs[q].ctl.f0, s'.procs[q].ctl.f1)
    {
      if q == a.p {
        OwnEnds(s, s', a);
      } else {
        OthersEnds(s, s', a, q);
      }
    }
  }

  lemma OwnEnds(s: State, s': State, a: Step)
    requires RefInv(s) && EndsInv(s) && StepBy(s, s', a) && a.p < |s'.procs|
    requires s'.procs[a.p].ctl.Pipe3? || s'.procs[a.p].ctl.Pipe4?
    ensures AreEnds(s', s'.procs[a.p].ctl.f0, s'.procs[a.p].ctl.f1)
  {
    hide RefInv, EndsInv, AreEnds, MakePipe, GetSlot;
    match a
    case MakePipeStep(p) => EndsMade(s, s', p);
    case GetSlotStep(p, fd, src) => EndsGetSlot(s, s', p, fd, src);
    case _ => NoEnds(s, s', a);
  }

  lemma EndsMade(s: State, s': State, p: nat)
    requires RefInv(s) && MakePipe(s, s', p) && p < |s'.procs| && (s'.procs[p].ctl.Pipe3? || s'.procs[p].ctl.Pipe4?)
    ensures AreEnds(s', s'.procs[p].ctl.f0, s'.procs[p].ctl.f1)
  {
    hide RefInv;
    TwoFiles(s, p);
  }

  lemma EndsGetSlot(s: State, s': State, p: nat, fd: nat, src: nat)
    requires EndsInv(s) && GetSlot(s, s', p, fd, src) && p < |s'.procs| && (s'.procs[p].ctl.Pipe3? || s'.procs[p].ctl.Pipe4?)
    ensures AreEnds(s', s'.procs[p].ctl.f0, s'.procs[p].ctl.f1)
  {
    hide IsSlot;
  }

  lemma NoEnds(s: State, s': State, a: Step)
    requires RefInv(s) && StepBy(s, s', a) && a.p < |s'.procs| && !a.MakePipeStep? && !a.GetSlotStep?
    ensures !s'.procs[a.p].ctl.Pipe3? && !s'.procs[a.p].ctl.Pipe4?
  {
    hide RefInv, IsFree, NoneFree, IsSlot, NoSlot, Shut, After;
    if a.p < |s.procs| { TwoFiles(s, a.p); }
  }

  lemma TwoFiles(s: State, p: nat)
    requires RefInv(s) && p < |s.procs|
    ensures s.procs[p].ctl.Pipe2? ==> s.procs[p].ctl.f0 != s.procs[p].ctl.f1
    ensures Closer(s.procs[p].ctl) ==> !After(s.procs[p].ctl).Pipe3? && !After(s.procs[p].ctl).Pipe4?
    ensures s.procs[p].ctl.Shutting? ==> !s.procs[p].ctl.next.Pipe3? && !s.procs[p].ctl.next.Pipe4?
  {
    assert ProcInv(s.procs[p], |s.files|);
  }

  lemma OthersEnds(s: State, s': State, a: Step, q: nat)
    requires RefInv(s) && EndsInv(s) && StepBy(s, s', a) && q < |s'.procs| && q != a.p
    requires s'.procs[q].ctl.Pipe3? || s'.procs[q].ctl.Pipe4?
    ensures AreEnds(s', s'.procs[q].ctl.f0, s'.procs[q].ctl.f1)
  {
    OtherCtl(s, s', a, q);
    hide StepBy;
    RefersToEnds(s, q);
    hide RefInv;
    FileKept(s, s', a, q, s.procs[q].ctl.f0);
    FileKept(s, s', a, q, s.procs[q].ctl.f1);
  }

  lemma OtherCtl(s: State, s': State, a: Step, q: nat)
    requires StepBy(s, s', a) && q < |s'.procs| && q != a.p && !s'.procs[q].ctl.Idle?
    ensures q < |s.procs| && s.procs[q].ctl == s'.procs[q].ctl
  {
    hide IsFree, NoneFree, IsSlot, NoSlot, Shut, Closed, After;
  }

  lemma RefersToEnds(s: State, q: nat)
    requires RefInv(s) && q < |s.procs| && (s.procs[q].ctl.Pipe3? || s.procs[q].ctl.Pipe4?)
    ensures var f0, f1 := s.procs[q].ctl.f0, s.procs[q].ctl.f1;
            f0 < |s.files| && f1 < |s.files| && RefsOf(s.procs[q], f0) >= 1 && RefsOf(s.procs[q], f1) >= 1
  {
    RefsNotNegative(s.procs[q], |s.files|, s.procs[q].ctl.f0);
  }

  lemma {:induction false} RunEnds(run: seq<State>, steps: seq<Step>, i: nat)
    requires IsRun(run, steps) && i < |run|
    ensures EndsInv(run[i])
  {
    hide StepBy, EndsInv;
    if i == 0 {
      NoEndsYet(run, steps);
    } else {
      RunEnds(run, steps, i - 1);
      RunInv(run, steps, i - 1);
      EndsStep(run[i - 1], run[i], steps[i - 1]);
    }
  }

  lemma NoEndsYet(run: seq<State>, steps: seq<Step>)
    requires IsRun(run, steps)
    ensures EndsInv(run[0])
  {
    hide StepBy;
  }

  /** sys_pipe: its two descriptors name the read end and the write end of one pipe. */
  lemma PipeGivesBothEnds(run: seq<State>, steps: seq<Step>, i: nat, p: nat, fd: nat, src: nat)
    requires IsRun(run, steps) && i < |steps| && steps[i] == GetSlotStep(p, fd, src)
    requires p < |run[i].procs| && run[i].procs[p].ctl.Pipe4?
    ensures p < |run[i + 1].procs| && run[i + 1].procs[p].ctl.Idle?
    ensures var c, now := run[i].procs[p].ctl, run[i + 1].procs[p].ofile;
            Names(now, c.fd0, c.f0) && Names(now, fd, c.f1) && fd != c.fd0 && AreEnds(run[i + 1], c.f0, c.f1)
  {
    RunEnds(run, steps, i);
    RunInv(run, steps, i);
    assert GetSlot(run[i], run[i + 1], p, fd, src) by { assert StepBy(run[i], run[i + 1], steps[i]); }
    hide IsRun;
    assert ProcInv(run[i].procs[p], |run[i].files|);
  }

  // ---- what descriptors name ----

  /** sys_open has not filled in the file of descriptor k, or exit has closed it already. */
  predicate Exempt(c: Ctl, k: nat) {
    (c.Filling? && c.fd == k) || (HasStale(c) && StaleFd(c) == k)
  }

  /** Every other descriptor names a file that is filled in. */
  ghost predicate SlotInv(s: State) {
    forall p, k :: 0 <= p < |s.procs| && 0 <= k < |s.procs[p].ofile| && !Exempt(s.procs[p].ctl, k) ==> NamesOpen(s, s.procs[p].ofile[k])
  }

  predicate NamesOpen(s: State, o: Option<nat>) {
    o.Some? ==> o.value < |s.files| && s.files[o.value].kind != FdNone
  }

  /** It is one of the process's references, beside one that fileclose is about to drop. */
  lemma SlotRefers(r: Proc, nfile: nat, k: nat, f: nat)
    requires ProcInv(r, nfile) && k < |r.ofile| && r.ofile[k] == Some(f) && !Exempt(r.ctl, k)
    ensures RefsOf(r, f) >= 1
    ensures Closer(r.ctl) && Target(r.ctl) == f && !(r.ctl.Exiting? && r.ctl.fd == k) ==> RefsOf(r, f) >= 2
  {
    SlotsUpdate(r.ofile, k, None, f);
    var rest := r.ofile[k := None];
    assert r.ctl.Shutting? ==> CtlInv(r.ofile, r.ctl.next, nfile) && Extra(r.ctl, f) == Extra(r.ctl.next, f);
    if HasStale(r.ctl) && Names(r.ofile, StaleFd(r.ctl), f) {
      SlotCounts(rest, StaleFd(r.ctl), f);
    } else if r.ctl.Duping? && r.ctl.f == f {
      SlotCounts(rest, if r.ctl.src == k then r.ctl.dst else r.ctl.src, f);
    } else if r.ctl.Exiting? && r.ctl.f == f && r.ctl.fd != k {
      SlotCounts(rest, r.ctl.fd, f);
    }
  }

  /** A file that a process refers to by such a descriptor stays open in every step but its own fileclose of it. */
  lemma StaysOpen(s: State, s': State, a: Step, q: nat, k: nat)
    requires RefInv(s) && StepBy(s, s', a) && q < |s.procs| && k < |s.procs[q].ofile| && !Exempt(s.procs[q].ctl, k)
    requires !(a == FileCloseStep(q) && s.procs[q].ctl.Exiting? && s.procs[q].ctl.fd == k)
    requires NamesOpen(s, s.procs[q].ofile[k])
    ensures NamesOpen(s', s.procs[q].ofile[k])
  {
    if s.procs[q].ofile[k].Some? {
      var f := s.procs[q].ofile[k].value;
      assert ProcInv(s.procs[q], |s.files|);
      SlotRefers(s.procs[q], |s.files|, k, f);
      if q != a.p {
        FileKept(s, s', a, q, f);
      } else {
        UsesAtLeast(s.procs, |s.files|, q, f);
        OwnFileStays(s, s', a, f);
      }
    }
  }

  lemma OwnFileStays(s: State, s': State, a: Step, f: nat)
    requires RefInv(s) && StepBy(s, s', a) && a.p < |s.procs| && f < |s.files| && s.files[f].kind != FdNone && s.files[f].ref >= 1
    requires a.FileCloseStep? && Closer(s.procs[a.p].ctl) && Target(s.procs[a.p].ctl) == f ==> s.files[f].ref >= 2
    ensures f < |s'.files| && s'.files[f].kind != FdNone
  {
    hide RefInv, NoneFree, IsSlot, NoSlot, Shut, Closed;
  }

  lemma SlotStep(s: State, s': State, a: Step)
    requires RefInv(s) && EndsInv(s) && SlotInv(s) && StepBy(s, s', a)
    ensures SlotInv(s')
  {
    hide RefInv, EndsInv;
    forall q, k | 0 <= q < |s'.procs| && 0 <= k < |s'.procs[q].ofile| && !Exempt(s'.procs[q].ctl, k)
      ensures NamesOpen(s', s'.procs[q].ofile[k])
    {
      SlotBefore(s, s', a, q, k);
    }
  }

  /** Where a descriptor comes from: it was there before, or the step has put it there. */
  lemma SlotBefore(s: State, s': State, a: Step, q: nat, k: nat)
    requires RefInv(s) && EndsInv(s) && SlotInv(s) && StepBy(s, s', a)
    requires q < |s'.procs| && k < |s'.procs[q].ofile| && !Exempt(s'.procs[q].ctl, k)
    ensures NamesOpen(s', s'.procs[q].ofile[k])
  {
    hide RefInv;
    SameProcs(s, s', a, q);
    if s'.procs[q].ofile[k] == s.procs[q].ofile[k] && !Exempt(s.procs[q].ctl, k)
       && !(a == FileCloseStep(q) && s.procs[q].ctl.Exiting? && s.procs[q].ctl.fd == k) {
      StaysOpen(s, s', a, q, k);
    } else {
      NewSlot(s, s', a, q, k);
    }
  }

  lemma SameProcs(s: State, s': State, a: Step, q: nat)
    requires StepBy(s, s', a) && q < |s'.procs|
    ensures |s'.procs| == |s.procs| && |s'.files| == |s.files| && |s'.procs[q].ofile| == |s.procs[q].ofile|
  {
    hide NoneFree, NoSlot, Shut, Closed, After, Target, Closer;
  }

  /** Something about descriptor k of process q has changed. */
  predicate Touched(s: State, s': State, a: Step, q: nat, k: nat) {
    && |s'.procs| == |s.procs| && q < |s.procs| && k < |s.procs[q].ofile| == |s'.procs[q].ofile| && !Exempt(s'.procs[q].ctl, k)
    && (|| s'.procs[q].ofile[k] != s.procs[q].ofile[k] || Exempt(s.procs[q].ctl, k)
        || (a == FileCloseStep(q) && s.procs[q].ctl.Exiting? && s.procs[q].ctl.fd == k))
  }

  lemma NewSlot(s: State, s': State, a: Step, q: nat, k: nat)
    requires RefInv(s) && EndsInv(s) && SlotInv(s) && StepBy(s, s', a) && Touched(s, s', a, q, k)
    ensures NamesOpen(s', s'.procs[q].ofile[k])
  {
    hide RefInv, EndsInv, SlotInv, Touched, GetSlot, Inherit, Fill;
    match a
    case GetSlotStep(p, fd, src) => SlotTaken(s, s', p, fd, src, q, k);
    case InheritStep(p, child, fd) => SlotInherited(s, s', p, child, fd, q, k);
    case FillStep(p, r, w) => SlotFilled(s, s', p, r, w, q, k);
    case _ => SlotGone(s, s', a, q, k);
  }

  lemma SlotTaken(s: State, s': State, p: nat, fd: nat, src: nat, q: nat, k: nat)
    requires RefInv(s) && EndsInv(s) && SlotInv(s) && GetSlot(s, s', p, fd, src) && Touched(s, s', GetSlotStep(p, fd, src), q, k)
    ensures NamesOpen(s', s'.procs[q].ofile[k])
  {
    hide RefInv;
    assert s.procs[p].ctl.Idle? ==> !Exempt(s.procs[p].ctl, src);
  }

  lemma SlotInherited(s: State, s': State, p: nat, child: nat, fd: nat, q: nat, k: nat)
    requires RefInv(s) && SlotInv(s) && Inherit(s, s', p, child, fd) && Touched(s, s', InheritStep(p, child, fd), q, k)
    ensures NamesOpen(s', s'.procs[q].ofile[k])
  {
    hide RefInv;
    assert !Exempt(s.procs[p].ctl, fd);
  }

  lemma SlotFilled(s: State, s': State, p: nat, r: bool, w: bool, q: nat, k: nat)
    requires RefInv(s) && Fill(s, s', p, r, w) && Touched(s, s', FillStep(p, r, w), q, k)
    ensures NamesOpen(s', s'.procs[q].ofile[k])
  {
    assert ProcInv(s.procs[p], |s.files|);
    hide RefInv;
  }

  /** Every other step can only clear it. */
  lemma SlotGone(s: State, s': State, a: Step, q: nat, k: nat)
    requires RefInv(s) && StepBy(s, s', a) && Touched(s, s', a, q, k) && !a.GetSlotStep? && !a.InheritStep? && !a.FillStep?
    ensures s'.procs[q].ofile[k] == None
  {
    hide RefInv, IsFree, NoneFree, NoSlot, Shut;
    if a.p < |s.procs| { StaleStays(s, a.p); }
  }

  lemma StaleStays(s: State, p: nat)
    requires RefInv(s) && p < |s.procs|
    ensures Closer(s.procs[p].ctl) ==> !HasStale(s.procs[p].ctl)
    ensures s.procs[p].ctl.Stale? ==> s.procs[p].ctl.fd < |s.procs[p].ofile|
  {
    assert ProcInv(s.procs[p], |s.files|);
  }

  lemma {:induction false} RunSlots(run: seq<State>, steps: seq<Step>, i: nat)
    requires IsRun(run, steps) && i < |run|
    ensures SlotInv(run[i])
  {
    hide StepBy, SlotInv, EndsInv;
    if i == 0 {
      NoSlotsYet(run, steps);
    } else {
      RunSlots(run, steps, i - 1);
      RunEnds(run, steps, i - 1);
      RunInv(run, steps, i - 1);
      SlotStep(run[i - 1], run[i], steps[i - 1]);
    }
  }

  lemma NoSlotsYet(run: seq<State>, steps: seq<Step>)
    requires IsRun(run, steps)
    ensures SlotInv(run[0])
  {
    hide StepBy;
  }

  /** Between its calls every descriptor of a process names a file that is filled in, of an inode or of a pipe. */
  lemma DescriptorsNameOpenFiles(run: seq<State>, steps: seq<Step>, i: nat, p: nat, fd: nat)
    requires IsRun(run, steps) && i < |run| && p < |run[i].procs| && run[i].procs[p].ctl.Idle?
    requires fd < |run[i].procs[p].ofile| && run[i].procs[p].ofile[fd].Some?
    ensures run[i].procs[p].ofile[fd].value < |run[i].files| && run[i].files[run[i].procs[p].ofile[fd].value].kind != FdNone
  {
    hide IsRun;
    RunSlots(run, steps, i);
    assert !Exempt(run[i].procs[p].ctl, fd);
  }

  /** The step would be panic("filedup") or panic("fileclose"). */
  predicate Panics(s: State, a: Step) {
    match a
    case DupStep(p) =>
      p < |s.procs| && s.procs[p].ctl.Duping? && s.procs[p].ctl.f < |s.files| && s.files[s.procs[p].ctl.f].ref < 1
    case InheritStep(p, _, fd) =>
      && p < |s.procs| && s.procs[p].ctl.Idle? && fd < |s.procs[p].ofile| && s.procs[p].ofile[fd].Some?
      && s.procs[p].ofile[fd].value < |s.files| && s.files[s.procs[p].ofile[fd].value].ref < 1
    case FileCloseStep(p) =>
      && p < |s.procs| && Closer(s.procs[p].ctl)
      && Target(s.procs[p].ctl) < |s.files| && s.files[Target(s.procs[p].ctl)].ref < 1
    case _ => false
  }

  lemma NoPanic(run: seq<State>, steps: seq<Step>, i: nat, a: Step)
    requires IsRun(run, steps) && i < |run|
    ensures !Panics(run[i], a)
  {
    hide StepBy;
    RunInv(run, steps, i);
    var s := run[i];
    hide HolderInv, FreedInv;
    if Panics(s, a) {
      var f := match a
        case DupStep(p) => s.procs[p].ctl.f
        case InheritStep(p, _, fd) => s.procs[p].ofile[fd].value
        case FileCloseStep(p) => Target(s.procs[p].ctl);
      RefsNotNegative(s.procs[a.p], |s.files|, f);
      UsesAtLeast(s.procs, |s.files|, a.p, f);
      assert false;
    }
  }
}
