/** file.c, pipealloc and the descriptor calls of sysfile.c as one process runs them. */
module FileMethods {
  import opened Options
  import opened FileTable

  /** pipeclose on the table of allocated pipes. */
  function ShutPipe(pipes: map<nat, Ends>, q: nat, w: bool): map<nat, Ends>
    requires q in pipes
  {
    var e := Shut(pipes[q], w);
    if !e.readopen && !e.writeopen then pipes - {q} else pipes[q := e]
  }

  /** Free files are empty; each open end of an allocated pipe is named by at most one file. */
  ghost predicate Shape(files: seq<File>, pipes: map<nat, Ends>, made: nat) {
    && (forall f :: 0 <= f < |files| && files[f].ref == 0 ==> files[f].kind == FdNone)
    && (forall f :: 0 <= f < |files| && files[f].kind == FdPipe ==>
                      files[f].pipe in pipes && Open(pipes[files[f].pipe], files[f].writable))
    && (forall f, g :: 0 <= f < g < |files| && SamePipe(files[f], files[g]) ==> files[f].writable != files[g].writable)
    && (forall q :: q in pipes ==> q < made && (pipes[q].readopen || pipes[q].writeopen))
  }

  predicate SamePipe(a: File, b: File) {
    a.kind == FdPipe && b.kind == FdPipe && a.pipe == b.pipe
  }

  /** What fileclose of a file with a reference leaves. */
  function ClosedFile(a: File): File {
    if a.ref > 1 then a.(ref := a.ref - 1) else a.(ref := 0, kind := FdNone)
  }

  function ClosedPipes(a: File, pipes: map<nat, Ends>): map<nat, Ends> {
    if a.ref <= 1 && a.kind == FdPipe && a.pipe in pipes then ShutPipe(pipes, a.pipe, a.writable) else pipes
  }

  lemma CloseShape(files: seq<File>, pipes: map<nat, Ends>, made: nat, f: nat)
    requires Shape(files, pipes, made) && f < |files| && files[f].ref >= 1
    ensures Shape(files[f := ClosedFile(files[f])], ClosedPipes(files[f], pipes), made)
  {
    var a := files[f];
    if a.ref <= 1 && a.kind == FdPipe {
      forall g | 0 <= g < |files| && g != f && files[g].kind == FdPipe
        ensures files[g].pipe == a.pipe ==> files[g].writable != a.writable
      {
        assert if f < g then SamePipe(files[f], files[g]) || files[g].pipe != a.pipe
          else SamePipe(files[g], files[f]) || files[g].pipe != a.pipe;
      }
    }
  }

  /** A count that stays positive, or a free file taken, changes nothing else. */
  lemma RefShape(files: seq<File>, pipes: map<nat, Ends>, made: nat, f: nat, ref: int)
    requires Shape(files, pipes, made) && f < |files| && ref >= 1
    ensures Shape(files[f := files[f].(ref := ref)], pipes, made)
  {
  }

  /** The two files of a new pipe. */
  lemma PipeShape(files: seq<File>, pipes: map<nat, Ends>, made: nat, f0: nat, f1: nat)
    requires Shape(files, pipes, made) && f0 < |files| && f1 < |files| && f0 != f1
    ensures Shape(files[f0 := File(1, FdPipe, true, false, made)][f1 := File(1, FdPipe, false, true, made)],
                  pipes[made := Ends(true, true)], made + 1)
  {
  }

  /** Closing both ends of a new pipe frees it. */
  lemma ShutBoth(pipes: map<nat, Ends>, q: nat)
    requires q !in pipes
    ensures var p1 := pipes[q := Ends(true, true)];
            q in ShutPipe(p1, q, false) && ShutPipe(ShutPipe(p1, q, false), q, true) == pipes
  {
  }

  // fcntl.h
  const O_RDONLY := 0
  const O_WRONLY := 1
  const O_RDWR := 2

  /** !(omode & O_WRONLY). */
  predicate Readable(omode: nat) {
    omode % 2 == 0
  }

  /** (omode & O_WRONLY) || (omode & O_RDWR). */
  predicate Writable(omode: nat) {
    omode % 2 == 1 || omode / 2 % 2 == 1
  }

  /** The three modes give the access they name, whatever flags from O_CREATE (0x200) on are set. */
  lemma AccessModes(flags: nat)
    requires flags % 4 == 0
    ensures Readable(flags + O_RDONLY) && !Writable(flags + O_RDONLY)
    ensures !Readable(flags + O_WRONLY) && Writable(flags + O_WRONLY)
    ensures Readable(flags + O_RDWR) && Writable(flags + O_RDWR)
  {
  }

  class OpenFiles {
    const files: array<File>         // ftable.file
    const ofile: array<Option<nat>>  // the process's descriptors
    var pipes: map<nat, Ends>
    var made: nat                    // names for pipes to come
    ghost const others: seq<nat>     // references held by other processes

    /** At call boundaries: every file's count is the number of descriptors that name it. */
    ghost predicate Valid()
      reads this, files, ofile
    {
      && Shape(files[..], pipes, made) && |others| == files.Length
      && (forall k :: 0 <= k < ofile.Length && ofile[k].Some? ==> ofile[k].value < files.Length)
      && forall f :: 0 <= f < files.Length ==> files[f].ref == Slots(ofile[..], f) + others[f]
    }

    constructor (nfile: nat, nofile: nat)
      ensures Valid() && files.Length == nfile && ofile.Length == nofile && pipes == map[]
      ensures forall f :: 0 <= f < nfile ==> files[f].ref == 0
      ensures fresh(files) && fresh(ofile)
    {
      files := new File[nfile](_ => File(0, FdNone, false, false, 0));
      ofile := new Option<nat>[nofile](_ => None);
      pipes := map[];
      made := 0;
      others := seq(nfile, _ => 0);
      new;
      forall f | 0 <= f < nfile
        ensures Slots(ofile[..], f) == 0
      {
        NoSlots(ofile[..], f);
      }
    }

    /** filealloc. */
    method FileAlloc() returns (r: Option<nat>)
      modifies files
      ensures r == None <==> NoneFree(old(files[..]))
      ensures r == None ==> files[..] == old(files[..])
      ensures r.Some? ==> IsFree(old(files[..]), r.value)
      ensures r.Some? ==> files[..] == old(files[..])[r.value := old(files[r.value]).(ref := 1)]
    {
      for f := 0 to files.Length
        invariant forall g :: 0 <= g < f ==> files[g].ref != 0
        invariant files[..] == old(files[..])
      {
        if files[f].ref == 0 {
          files[f] := files[f].(ref := 1);
          return Some(f);
        }
      }
      return None;
    }

    /** filedup; true means a panic. */
    method FileDup(f: nat) returns (panicked: bool)
      requires f < files.Length
      modifies files
      ensures panicked <==> old(files[f].ref) < 1
      ensures files[..] == if panicked then old(files[..]) else old(files[..])[f := old(files[f]).(ref := old(files[f]).ref + 1)]
    {
      if files[f].ref < 1 {
        return true;
      }
      files[f] := files[f].(ref := files[f].ref + 1);
      return false;
    }

    /** fileclose with the pipeclose it may end in; true means a panic. */
    method FileClose(f: nat) returns (panicked: bool)
      requires f < files.Length && (files[f].kind == FdPipe ==> files[f].pipe in pipes)
      modifies this`pipes, files
      ensures panicked <==> old(files[f].ref) < 1
      ensures panicked ==> files[..] == old(files[..]) && pipes == old(pipes)
      ensures !panicked ==> files[..] == old(files[..])[f := ClosedFile(old(files[f]))] && pipes == ClosedPipes(old(files[f]), old(pipes))
    {
      if files[f].ref < 1 {
        return true;
      }
      if files[f].ref - 1 > 0 {
        files[f] := files[f].(ref := files[f].ref - 1);
        return false;
      }
      var ff := files[f];
      files[f] := files[f].(ref := 0, kind := FdNone);
      if ff.kind == FdPipe {
        pipes := ShutPipe(pipes, ff.pipe, ff.writable);
      }
      return false;
    }

    /** fdalloc. */
    method FdAlloc(f: nat) returns (fd: int)
      modifies ofile
      ensures -1 <= fd < ofile.Length
      ensures fd == -1 <==> NoSlot(old(ofile[..]))
      ensures fd == -1 ==> ofile[..] == old(ofile[..])
      ensures fd >= 0 ==> IsSlot(old(ofile[..]), fd) && ofile[..] == old(ofile[..])[fd := Some(f)]
    {
      for k := 0 to ofile.Length
        invariant forall j :: 0 <= j < k ==> ofile[j].Some?
        invariant ofile[..] == old(ofile[..])
      {
        if ofile[k] == None {
          ofile[k] := Some(f);
          return k;
        }
      }
      return -1;
    }

    /** sys_dup of any number the caller passes; -1 for a bad descriptor or a full table. */
    method SysDup(fd: int) returns (r: int)
      requires Valid()
      modifies files, ofile
      ensures Valid()
      ensures r == -1 <==> !(0 <= fd < ofile.Length && old(ofile[fd]).Some?) || NoSlot(old(ofile[..]))
      ensures r == -1 ==> files[..] == old(files[..]) && ofile[..] == old(ofile[..])
      ensures r != -1 ==> 0 <= r < ofile.Length && IsSlot(old(ofile[..]), r) && ofile[..] == old(ofile[..])[r := old(ofile[fd])]
      ensures r != -1 ==> old(ofile[fd].value < files.Length)
      ensures r != -1 ==>
                var f := old(ofile[fd].value);
                files[..] == old(files[..])[f := old(files[..])[f].(ref := old(files[..])[f].ref + 1)]
    {
      hide Shape, Slots, NoSlot, IsSlot;
      if fd < 0 || fd >= ofile.Length || ofile[fd] == None {
        return -1;
      }
      var f := ofile[fd].value;
      ghost var slots := ofile[..];
      SlotCounts(slots, fd, f);
      r := FdAlloc(f);
      if r < 0 {
        return -1;
      }
      SlotIsNone(slots, r);
      RefShape(files[..], pipes, made, f, files[f].ref + 1);
      var panicked := FileDup(f);
      forall g | 0 <= g < files.Length
        ensures Slots(ofile[..], g) == Slots(slots, g) + if g == f then 1 else 0
      {
        SlotsUpdate(slots, r, Some(f), g);
      }
    }

    /** sys_close. */
    method SysClose(fd: int) returns (r: int)
      requires Valid()
      modifies this`pipes, files, ofile
      ensures Valid()
      ensures r == if 0 <= fd < ofile.Length && old(ofile[fd]).Some? then 0 else -1
      ensures r == -1 ==> files[..] == old(files[..]) && ofile[..] == old(ofile[..]) && pipes == old(pipes)
      ensures r == 0 ==> ofile[..] == old(ofile[..])[fd := None] && old(ofile[fd].value < files.Length)
      ensures r == 0 ==>
                var f := old(ofile[fd].value);
                var was := old(files[..])[f];
                files[..] == old(files[..])[f := ClosedFile(was)] && pipes == ClosedPipes(was, old(pipes))
    {
      if fd < 0 || fd >= ofile.Length || ofile[fd] == None {
        return -1;
      }
      var f := ofile[fd].value;
      ghost var slots := ofile[..];
      SlotCounts(slots, fd, f);
      CloseShape(files[..], pipes, made, f);
      PipeIsThere(files[..], pipes, made, f);
      hide Shape;
      ofile[fd] := None;
      var panicked := FileClose(f);
      forall g | 0 <= g < files.Length
        ensures Slots(ofile[..], g) == Slots(slots, g) - if g == f then 1 else 0
      {
        SlotsUpdate(slots, fd, None, g);
      }
      return 0;
    }

    /** The descriptor part of sys_open, with the inode found; -1 when no file or no descriptor is left. */
    method SysOpen(omode: nat) returns (fd: int)
      requires Valid()
      modifies this`pipes, files, ofile
      ensures Valid() && pipes == old(pipes)
      ensures fd == -1 <==> NoneFree(old(files[..])) || NoSlot(old(ofile[..]))
      ensures fd == -1 ==> files[..] == old(files[..]) && ofile[..] == old(ofile[..])
      ensures fd != -1 ==>
                && 0 <= fd < ofile.Length && IsSlot(old(ofile[..]), fd) && ofile[fd].Some?
                && ofile[..] == old(ofile[..])[fd := ofile[fd]] && IsFree(old(files[..]), ofile[fd].value)
                && var f := ofile[fd].value;
                files[..] == old(files[..])[f := File(1, FdInode, Readable(omode), Writable(omode), old(files[..])[f].pipe)]
    {
      ghost var was, slots := files[..], ofile[..];
      assert forall f :: 0 <= f < |was| && was[f].ref == 0 ==> was[f].kind == FdNone;
      hide Shape, IsFree, NoneFree, NoSlot, IsSlot;
      var a := FileAlloc();
      if a == None {
        return -1;
      }
      var f := a.value;
      IsFreeFile(was, f);
      fd := FdAlloc(f);
      if fd < 0 {
        var _ := FileClose(f);
        UndoAlloc(was, f);
        FreeIsNotNone(was, f);
        return -1;
      }
      FreeIsNotNone(was, f);
      var readable, writable := omode % 2 == 0, omode % 2 == 1 || omode / 2 % 2 == 1;
      OpenShape(was, pipes, made, f, readable, writable);
      files[f] := files[f].(kind := FdInode, readable := readable, writable := writable);
      assert files[..] == was[f := File(1, FdInode, readable, writable, was[f].pipe)];
      forall g | 0 <= g < files.Length
        ensures files[g].ref == Slots(ofile[..], g) + others[g]
      {
        SlotsUpdate(slots, fd, Some(f), g);
        SlotIsNone(slots, fd);
      }
    }

    /** pipealloc's two calls of filealloc; the first file goes back when the second call fails. */
    method TakeTwo() returns (r: Option<(nat, nat)>)
      requires Shape(files[..], pipes, made)
      modifies this`pipes, files
      ensures pipes == old(pipes) && (r.Some? <==> TwoFree(old(files[..])))
      ensures r == None ==> files[..] == old(files[..])
      ensures r.Some? ==>
                var (f0, f1) := r.value;
                && f0 < f1 < files.Length && old(files[f0].ref) == 0 && old(files[f1].ref) == 0
                && FirstTwo(old(files[..]), f0, f1)
                && files[..] == old(files[..])[f0 := old(files[f0]).(ref := 1)][f1 := old(files[f1]).(ref := 1)]
    {
      ghost var was := files[..];
      assert forall f :: 0 <= f < |was| && was[f].ref == 0 ==> was[f].kind == FdNone;
      hide Shape, TwoFree, IsFree, NoneFree;
      var a := FileAlloc();
      if a == None {
        AllUsed(was);
        return None;
      }
      var f0 := a.value;
      IsFreeFile(was, f0);
      var b := FileAlloc();
      if b == None {
        OneFree(was, f0);
        var _ := FileClose(f0);
        UndoAlloc(was, f0);
        return None;
      }
      TwoAllocs(was, f0, b.value);
      return Some((f0, b.value));
    }

    /** pipealloc: two files for the ends of a new pipe, or nothing at all. */
    method PipeAlloc(kalloc: bool) returns (r: Option<(nat, nat)>)
      requires Shape(files[..], pipes, made)
      modifies this`pipes, this`made, files
      ensures r.Some? <==> TwoFree(old(files[..])) && kalloc
      ensures r == None ==> files[..] == old(files[..]) && pipes == old(pipes) && made == old(made)
      ensures r.Some? ==>
                var (f0, f1) := r.value;
                && f0 < f1 < files.Length && old(files[f0].ref) == 0 && old(files[f1].ref) == 0
                && FirstTwo(old(files[..]), f0, f1)
                && files[..] == old(files[..])[f0 := File(1, FdPipe, true, false, old(made))][f1 := File(1, FdPipe, false, true, old(made))]
                && pipes == old(pipes)[old(made) := Ends(true, true)] && made == old(made) + 1
    {
      ghost var was := files[..];
      assert forall f :: 0 <= f < |was| && was[f].ref == 0 ==> was[f].kind == FdNone;
      hide Shape, TwoFree, FirstTwo;
      r := TakeTwo();
      if r == None {
        return;
      }
      var (f0, f1) := r.value;
      if !kalloc {
        var _ := FileClose(f0);
        var _ := FileClose(f1);
        UndoAllocs(was, f0, f1);
        return None;
      }
      files[f0] := files[f0].(kind := FdPipe, readable := true, writable := false, pipe := made);
      files[f1] := files[f1].(kind := FdPipe, readable := false, writable := true, pipe := made);
      assert files[..] == was[f0 := File(1, FdPipe, true, false, made)][f1 := File(1, FdPipe, false, true, made)];
      pipes := pipes[made := Ends(true, true)];
      made := made + 1;
    }

    /** sys_pipe: both descriptors or, with every count, kind, descriptor and pipe as before, neither. */
    method SysPipe(kalloc: bool) returns (r: int, fd0: int, fd1: int)
      requires Valid()
      modifies this`pipes, this`made, files, ofile
      ensures Valid() && (r == 0 || r == -1)
      ensures r == 0 <==> kalloc && TwoFree(old(files[..])) && TwoSlots(old(ofile[..]))
      ensures r == -1 ==> SameFiles(old(files[..]), files[..]) && ofile[..] == old(ofile[..]) && pipes == old(pipes)
      ensures r == 0 ==>
                && 0 <= fd0 < fd1 < ofile.Length && FirstSlots(old(ofile[..]), fd0, fd1)
                && ofile[fd0].Some? && ofile[fd1].Some? && ofile[fd0].value < ofile[fd1].value < files.Length
                && ofile[..] == old(ofile[..])[fd0 := ofile[fd0]][fd1 := ofile[fd1]]
                && FirstTwo(old(files[..]), ofile[fd0].value, ofile[fd1].value)
                && files[..] == old(files[..])[ofile[fd0].value := File(1, FdPipe, true, false, old(made))]
                                              [ofile[fd1].value := File(1, FdPipe, false, true, old(made))]
                && pipes == old(pipes)[old(made) := Ends(true, true)] && made == old(made) + 1
    {
      hide Shape, TwoFree, Slots, FirstTwo, IsSlot, NoSlot, TwoSlots, FirstSlots;
      fd0, fd1 := -1, -1;
      ghost var was, slots := files[..], ofile[..];
      var a := PipeAlloc(kalloc);
      if a == None {
        return -1, -1, -1;
      }
      var (rf, wf) := a.value;
      PipeShape(was, old(pipes), old(made), rf, wf);
      fd0 := FdAlloc(rf);
      if fd0 >= 0 {
        fd1 := FdAlloc(wf);
      }
      if fd0 < 0 || fd1 < 0 {
        OneSlot(slots, fd0, rf);
        if fd0 >= 0 {
          ofile[fd0] := None;
        }
        assert ofile[..] == slots;
        NotYetMade(was, old(pipes), old(made));
        ShutBoth(old(pipes), old(made));
        CloseShape(files[..], pipes, made, rf);
        var _ := FileClose(rf);
        CloseShape(files[..], pipes, made, wf);
        var _ := FileClose(wf);
        FreeAgain(was, files[..], old(pipes), old(made), rf, wf);
        return -1, fd0, fd1;
      }
      r := 0;
      SlotsInOrder(slots, fd0, rf, fd1);
      forall g | 0 <= g < files.Length
        ensures files[g].ref == Slots(ofile[..], g) + others[g]
      {
        SlotsUpdate(slots, fd0, Some(rf), g);
        SlotsUpdate(slots[fd0 := Some(rf)], fd1, Some(wf), g);
      }
    }
  }

  /** fd0 and fd1 are the first two descriptors that name no file. */
  ghost predicate FirstSlots(ofile: seq<Option<nat>>, fd0: nat, fd1: nat) {
    && fd0 < fd1 < |ofile| && ofile[fd0] == ofile[fd1] == None
    && forall k :: 0 <= k < fd1 && k != fd0 ==> ofile[k].Some?
  }

  lemma SlotsInOrder(ofile: seq<Option<nat>>, fd0: nat, f: nat, fd1: nat)
    requires IsSlot(ofile, fd0) && IsSlot(ofile[fd0 := Some(f)], fd1)
    ensures FirstSlots(ofile, fd0, fd1) && TwoSlots(ofile) && ofile[fd0 := Some(f)][fd1] == None
  {
    var a := ofile[fd0 := Some(f)];
    assert a[fd1] == None;
    forall k | 0 <= k < fd1 && k != fd0
      ensures ofile[k].Some?
    {
      assert a[k] == ofile[k];
    }
  }

  /** f0 and f1 are the first two files without references. */
  ghost predicate FirstTwo(files: seq<File>, f0: nat, f1: nat) {
    && f0 < f1 < |files| && files[f0].ref == 0 && files[f1].ref == 0
    && forall g :: 0 <= g < f1 && g != f0 ==> files[g].ref != 0
  }

  ghost predicate TwoFree(files: seq<File>) {
    exists f, g :: 0 <= f < g < |files| && files[f].ref == 0 && files[g].ref == 0
  }

  ghost predicate TwoSlots(ofile: seq<Option<nat>>) {
    exists j, k :: 0 <= j < k < |ofile| && ofile[j] == None && ofile[k] == None
  }

  /** Counts and kinds agree, and used files agree in every field. */
  ghost predicate SameFiles(a: seq<File>, b: seq<File>) {
    |a| == |b| && forall f :: 0 <= f < |a| ==> a[f].ref == b[f].ref && a[f].kind == b[f].kind && (a[f].ref != 0 ==> a[f] == b[f])
  }

  lemma FreeIsNotNone(files: seq<File>, f: nat)
    requires IsFree(files, f)
    ensures !NoneFree(files)
  {
  }

  lemma SlotIsNone(ofile: seq<Option<nat>>, fd: nat)
    requires IsSlot(ofile, fd)
    ensures fd < |ofile| && ofile[fd] == None
  {
  }

  lemma OpenShape(files: seq<File>, pipes: map<nat, Ends>, made: nat, f: nat, r: bool, w: bool)
    requires Shape(files, pipes, made) && f < |files|
    ensures Shape(files[f := File(1, FdInode, r, w, files[f].pipe)], pipes, made)
  {
  }

  lemma AllUsed(files: seq<File>)
    requires NoneFree(files)
    ensures !TwoFree(files)
  {
  }

  lemma IsFreeFile(files: seq<File>, f: nat)
    requires IsFree(files, f)
    ensures f < |files| && files[f].ref == 0
  {
  }

  lemma TwoAllocs(files: seq<File>, f0: nat, f1: nat)
    requires IsFree(files, f0) && IsFree(files[f0 := files[f0].(ref := 1)], f1)
    ensures f0 < f1 < |files| && files[f1].ref == 0 && TwoFree(files) && FirstTwo(files, f0, f1)
  {
    var a := files[f0 := files[f0].(ref := 1)];
    assert a[f1].ref == 0 && files[f0].ref == 0;
    forall g | 0 <= g < f1 && g != f0
      ensures files[g].ref != 0
    {
      assert a[g] == files[g];
    }
  }

  /** fileclose of a file just taken gives it back as it was. */
  lemma UndoAlloc(files: seq<File>, f: nat)
    requires f < |files| && files[f].ref == 0 && files[f].kind == FdNone
    ensures var a := files[f].(ref := 1);
            files[f := a][f := ClosedFile(a)] == files && forall pipes :: ClosedPipes(a, pipes) == pipes
  {
    assert ClosedFile(files[f].(ref := 1)) == files[f];
  }

  lemma UndoAllocs(files: seq<File>, f0: nat, f1: nat)
    requires f0 < f1 < |files| && files[f0].ref == files[f1].ref == 0 && files[f0].kind == files[f1].kind == FdNone
    ensures var a, b := files[f0].(ref := 1), files[f1].(ref := 1);
            files[f0 := a][f1 := b][f0 := ClosedFile(a)][f1 := ClosedFile(b)] == files
  {
    assert ClosedFile(files[f0].(ref := 1)) == files[f0] && ClosedFile(files[f1].(ref := 1)) == files[f1];
  }

  lemma OneFree(files: seq<File>, f0: nat)
    requires IsFree(files, f0) && NoneFree(files[f0 := files[f0].(ref := 1)])
    ensures !TwoFree(files)
  {
    var a := files[f0 := files[f0].(ref := 1)];
    forall f | 0 <= f < |files| && f != f0
      ensures files[f].ref != 0
    {
      assert a[f] == files[f];
    }
  }

  lemma OneSlot(ofile: seq<Option<nat>>, fd0: int, f: nat)
    requires if fd0 < 0 then NoSlot(ofile) else fd0 < |ofile| && NoSlot(ofile[fd0 := Some(f)])
    ensures !TwoSlots(ofile)
  {
    if fd0 >= 0 {
      var a := ofile[fd0 := Some(f)];
      forall k | 0 <= k < |ofile| && k != fd0
        ensures ofile[k].Some?
      {
        assert a[k] == ofile[k];
      }
    }
  }

  lemma PipeIsThere(files: seq<File>, pipes: map<nat, Ends>, made: nat, f: nat)
    requires Shape(files, pipes, made) && f < |files|
    ensures files[f].kind == FdPipe ==> files[f].pipe in pipes
  {
  }

  lemma NotYetMade(files: seq<File>, pipes: map<nat, Ends>, made: nat)
    requires Shape(files, pipes, made)
    ensures made !in pipes
  {
  }

  /** The two files are free again, and empty as they were. */
  lemma FreeAgain(was: seq<File>, now: seq<File>, pipes: map<nat, Ends>, made: nat, f0: nat, f1: nat)
    requires Shape(was, pipes, made) && f0 < f1 < |was| == |now| && was[f0].ref == 0 && was[f1].ref == 0
    requires forall f :: 0 <= f < |was| && f != f0 && f != f1 ==> now[f] == was[f]
    requires now[f0].ref == now[f1].ref == 0 && now[f0].kind == now[f1].kind == FdNone
    ensures SameFiles(was, now)
  {
  }
}
