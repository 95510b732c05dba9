/**
 log.c over bio.c over memide.c as one step system. Any process may move at any
 time, each move being one critical section, one disk transfer or one copy, and
 the machine may crash between any two moves.
 */
module Storage {
  import opened Options
  import opened Sequences
  import opened Params
  import opened Blocks
  import opened LogDisk
  import opened CrashLog
  import B = SharedCache
  import G = GroupCommit
  import S = BlockStore
  import C = BufferCache
  import R = CacheRoom

  datatype State = State(bio: B.Bio, log: Log)

  /** Power-on with any well-formed disk: the kernel is about to run recover_from_log. */
  function Boot(c: Config, d: Disk): State
    requires WfDisk(c, d)
  {
    State(B.Init(d, c.nbuf), Log(G.Init(c), ReadHead(GetHead), 0, true, Recover(c, d), 0))
  }

  datatype Step =
    | Client(bs: B.Step)                 // a process outside commit uses the cache
    | BeginOp(p: nat)
    | SleepOp(p: nat)                    // begin_op finds no room, or a commit
    | CheckLogWrite(p: nat, b: nat, x: nat)
    | LogWrite(p: nat, b: nat, x: nat)
    | EndOp(p: nat)
    | Inside(bs: B.Step)                 // the worker, inside a bread or brelse it called
    | Ask(b: nat)                        // the worker calls bget
    | CopyBlock(src: nat, dst: nat)      // memmove between two buffers
    | UseHeader(b: nat)                  // write_head or read_head goes over the header buffer
    | WriteBlock(b: nat)                 // bwrite
    | Give(b: nat)                       // the worker calls brelse
    | Turn                               // the worker's loop or function moves on
    | Crash

  function Pid(bs: B.Step): nat {
    if bs.NoStep? then 0 else bs.p
  }

  /** A process that may call bread, brelse, log_write or end_op. */
  ghost predicate Free(s: State, p: nat) {
    && p < |s.log.g.ctl| && p !in s.log.g.asleep && !s.log.booting
    && (s.log.g.ctl[p].Idle? || (s.log.g.ctl[p].Op? && s.log.g.ctl[p].passed == None))
  }

  /** Any process may read; only an operation may change a block, and only a home block. */
  ghost predicate ClientStep(c: Config, s: State, s': State, bs: B.Step) {
    && Free(s, Pid(bs)) && B.StepBy(s.bio, s'.bio, bs) && s'.log == s.log
    && !bs.NoStep? && !bs.PinStep? && !bs.BwriteStep?
    && (bs.ModifyStep? ==> s.log.g.ctl[bs.p].Op? && Home(c, bs.x))
  }

  ghost predicate BeginStep(c: Config, s: State, s': State, p: nat) {
    !s.log.booting && G.Begin(c, s.log.g, s'.log.g, p) && s' == s.(log := s.log.(g := s'.log.g))
  }

  ghost predicate SleepStep(c: Config, s: State, s': State, p: nat) {
    !s.log.booting && G.Sleep(c, s.log.g, s'.log.g, p) && s' == s.(log := s.log.(g := s'.log.g))
  }

  ghost predicate CheckStep(c: Config, s: State, s': State, p: nat, b: nat, x: nat) {
    && B.Has(s.bio, p, b, x) && !B.Pending(s.bio, p)
    && G.Check(c, s.log.g, s'.log.g, p, x) && s' == s.(log := s.log.(g := s'.log.g))
  }

  ghost predicate LogWriteStep(c: Config, s: State, s': State, p: nat, b: nat, x: nat) {
    && B.Pin(s.bio, s'.bio, p, b, x) && Home(c, x)
    && G.Append(c, s.log.g, s'.log.g, p, x, s.bio.cache.bufs[b].data)
    && s'.log == s.log.(g := s'.log.g)
  }

  /** An operation has released its buffers when it ends. */
  ghost predicate EndStep(c: Config, s: State, s': State, p: nat) {
    && (forall r :: r in s.bio.refs ==> r.pid != p)
    && G.End(c, s.log.g, s'.log.g, p)
    && s' == s.(log := s.log.(g := s'.log.g, job := StartJob(s'.log.g),
             worker := if s'.log.g.committing then p else s.log.worker))
  }

  // ---- the worker ----

  ghost predicate InsideStep(s: State, s': State, bs: B.Step) {
    && (bs.AcquireStep? || bs.FillStep? || bs.DropStep?) && bs.p == s.log.worker && s.log.job != NoJob
    && B.StepBy(s.bio, s'.bio, bs) && s'.log == s.log
  }

  /** The block of the bread call the job is at. */
  function Wanted(c: Config, l: Log): Option<nat> {
    match l.job
    case WriteLog(t, GetLog) => Some(Slot(c, t))
    case Installing(t, GetLog) => Some(Slot(c, t))
    case WriteLog(t, GetHome) => if t < |l.g.lh| then Some(l.g.lh[t]) else None
    case Installing(t, GetHome) => if t < |l.g.lh| then Some(l.g.lh[t]) else None
    case Commit(GetHead) => Some(c.start)
    case Clear(GetHead) => Some(c.start)
    case ReadHead(GetHead) => Some(c.start)
    case _ => None
  }

  /** The block of the brelse call the job is at. */
  function Given(c: Config, l: Log): Option<nat> {
    match l.job
    case WriteLog(t, Release1) => if t < |l.g.lh| then Some(l.g.lh[t]) else None
    case WriteLog(t, Release2) => Some(Slot(c, t))
    case Installing(t, Release1) => Some(Slot(c, t))
    case Installing(t, Release2) => if t < |l.g.lh| then Some(l.g.lh[t]) else None
    case Commit(ReleaseHead) => Some(c.start)
    case Clear(ReleaseHead) => Some(c.start)
    case ReadHead(ReleaseHead) => Some(c.start)
    case _ => None
  }

  /** The bread before this point has returned: the worker has block x. */
  ghost predicate Ready(s: State, x: nat) {
    exists b: nat :: B.Has(s.bio, s.log.worker, b, x)
  }

  ghost predicate AskStep(c: Config, s: State, s': State, b: nat) {
    var l := s.log;
    && Wanted(c, l).Some? && Advanced(l.job).Some?
    && ((l.job.WriteLog? || l.job.Installing?) && l.job.pc == GetHome ==> Ready(s, Slot(c, l.job.t)))
    && B.Get(s.bio, s'.bio, l.worker, Wanted(c, l).value, b)
    && s'.log == l.(job := Advanced(l.job).value)
  }

  ghost predicate GiveStep(c: Config, s: State, s': State, b: nat) {
    var l := s.log;
    && Given(c, l).Some? && Advanced(l.job).Some?
    && b < |s.bio.cache.bufs| && s.bio.cache.bufs[b].block == Given(c, l)
    && B.Unlock(s.bio, s'.bio, l.worker, b)
    && s'.log == l.(job := Advanced(l.job).value)
  }

  /** One block copied between two held buffers: cache to log in write_log, log to home in install_trans. */
  ghost predicate CopyStep(c: Config, s: State, s': State, src: nat, dst: nat) {
    var l := s.log;
    && (l.job.WriteLog? || l.job.Installing?) && l.job.pc == Copy && l.job.t < |l.g.lh|
    && !B.Pending(s.bio, l.worker)
    && var from := if l.job.WriteLog? then l.g.lh[l.job.t] else Slot(c, l.job.t);
    var to := if l.job.WriteLog? then Slot(c, l.job.t) else l.g.lh[l.job.t];
    && B.Has(s.bio, l.worker, src, from)
    && B.Modify(s.bio, s'.bio, l.worker, dst, to, s.bio.cache.bufs[src].data)
    && s'.log == l.(job := l.job.(pc := Store))
  }

  ghost predicate HeaderStep(c: Config, s: State, s': State, b: nat) {
    var l := s.log;
    && !B.Pending(s.bio, l.worker) && B.Has(s.bio, l.worker, b, c.start)
    && match l.job
       case ReadHead(UseHead) =>
         s' == s.(log := l.(job := ReadHead(ReleaseHead), g := l.g.(lh := HeadOf(s.bio.cache.bufs[b].data))))
       case Commit(UseHead) =>
         && |l.g.lh| < WORDS
         && B.Modify(s.bio, s'.bio, l.worker, b, c.start, PutHead(s.bio.cache.bufs[b].data, l.g.lh))
         && s'.log == l.(job := Commit(StoreHead))
       case Clear(UseHead) =>
         && |l.g.lh| < WORDS
         && B.Modify(s.bio, s'.bio, l.worker, b, c.start, PutHead(s.bio.cache.bufs[b].data, l.g.lh))
         && s'.log == l.(job := Clear(StoreHead))
       case _ => false
  }

  /** One disk write of the job; the one of the first write_head is the commit point. */
  ghost predicate WriteStep(c: Config, s: State, s': State, b: nat) {
    var l := s.log;
    && JobOpen(c, l).Some?
    && B.Bwrite(s.bio, s'.bio, l.worker, b, JobOpen(c, l).value)
    && s'.log == (match l.job
                  case Commit(_) => l.(job := Commit(ReleaseHead), durable := |l.g.writes|)
                  case Clear(_) => l.(job := Clear(ReleaseHead))
                  case WriteLog(t, _) => l.(job := WriteLog(t, Release1))
                  case Installing(t, _) => l.(job := Installing(t, Release1))
                  case _ => l)
  }

  /** log.lh.n = 0 after install_trans. */
  ghost predicate ClearLog(c: Config, l: Log, l': Log) {
    if l.booting then l' == l.(job := Clear(GetHead), g := l.g.(lh := []))
    else G.Clear(c, l.g, l'.g, l.worker) && l' == l.(job := Clear(GetHead), g := l'.g)
  }

  ghost predicate TurnStep(c: Config, s: State, s': State) {
    var l, l' := s.log, s'.log;
    && !B.Pending(s.bio, l.worker) && s'.bio == s.bio
    && match l.job
       case WriteLog(t, Again) =>
         l' == l.(job := if t + 1 < |l.g.lh| then WriteLog(t + 1, GetLog) else Commit(GetHead))
       case Commit(HeadDone) => l' == l.(job := Installing(0, GetLog))
       case Installing(t, Again) =>
         if t + 1 < |l.g.lh| then l' == l.(job := Installing(t + 1, GetLog)) else ClearLog(c, l, l')
       case ReadHead(HeadDone) =>
         if l.g.lh != [] then l' == l.(job := Installing(0, GetLog)) else ClearLog(c, l, l')
       case Clear(HeadDone) =>
         l' == if l.booting then l.(job := NoJob, booting := false) else l.(job := Finish)
       case Finish => G.Done(c, l.g, l'.g, l.worker) && l' == l.(job := NoJob, g := l'.g)
       case _ => false
  }

  ghost predicate CrashStep(c: Config, s: State, s': State) {
    && s.log.durable <= |s.log.g.writes|
    && s' == State(B.Init(s.bio.disk, c.nbuf), Crashed(c, s.log))
  }

  ghost predicate StepBy(c: Config, s: State, s': State, a: Step) {
    match a
    case Client(bs) => ClientStep(c, s, s', bs)
    case BeginOp(p) => BeginStep(c, s, s', p)
    case SleepOp(p) => SleepStep(c, s, s', p)
    case CheckLogWrite(p, b, x) => CheckStep(c, s, s', p, b, x)
    case LogWrite(p, b, x) => LogWriteStep(c, s, s', p, b, x)
    case EndOp(p) => EndStep(c, s, s', p)
    case Inside(bs) => InsideStep(s, s', bs)
    case Ask(b) => AskStep(c, s, s', b)
    case CopyBlock(src, dst) => CopyStep(c, s, s', src, dst)
    case UseHeader(b) => HeaderStep(c, s, s', b)
    case WriteBlock(b) => WriteStep(c, s, s', b)
    case Give(b) => GiveStep(c, s, s', b)
    case Turn => TurnStep(c, s, s')
    case Crash => CrashStep(c, s, s')
  }

  /** A run with the steps it takes, from power-on. */
  ghost predicate IsRun(c: Config, run: seq<State>, steps: seq<Step>) {
    && |run| == |steps| + 1
    && (exists d: Disk :: WfDisk(c, d) && run[0] == Boot(c, d))
    && forall i :: 0 <= i < |steps| ==> StepBy(c, run[i], run[i + 1], steps[i])
  }

  ghost predicate Inv(c: Config, s: State) {
    B.Inv(s.bio) && |s.bio.cache.bufs| == c.nbuf && LogInv(c, B.Abs(s.bio), s.log)
  }

  /**
   The step that would leave the log area: write_log asks for its first buffer
   although more blocks are logged than the area has room for.
   */
  predicate Overruns(c: Config, s: State, a: Step) {
    a.Ask? && Overlong(c, s.log)
  }

  /** LOGSIZE is below log.size, or the cache has no more buffers than the log area has blocks. */
  predicate Contained(c: Config) {
    c.logsize <= c.size - 1 || c.nbuf <= c.size
  }

  /** No overrun up to state i, or none at all in this configuration. */
  ghost predicate Kept(c: Config, run: seq<State>, steps: seq<Step>, i: nat) {
    Contained(c) || forall j :: 0 <= j < i && j < |run| && j < |steps| ==> !Overruns(c, run[j], steps[j])
  }

  // ---- every step keeps the invariant ----

  /** After a crash or at power-on the cache holds nothing. */
  lemma FreshCache(c: Config, d: Disk)
    ensures B.Inv(B.Init(d, c.nbuf))
    ensures B.Abs(B.Init(d, c.nbuf)) == S.Store(d, d, {}, map[], {})
    ensures B.Init(d, c.nbuf).disk == d && |B.Init(d, c.nbuf).cache.bufs| == c.nbuf
  {
    B.InitInv(d, c.nbuf);
    var m := B.Init(d, c.nbuf);
    assert forall x: nat :: B.Look(m.cache.bufs, x) == None;
    assert B.Abs(m).val == d;
  }

  lemma BootedLog(c: Config, d: Disk)
    requires WfDisk(c, d)
    ensures LogInv(c, S.Store(d, d, {}, map[], {}), Boot(c, d).log)
  {
    var v := Recover(c, d);
    RecoverDurable(c, d, v);
    G.InitInv(c);
    hide Recover, G.Inv;
  }

  lemma BootInv(c: Config, d: Disk)
    requires WfDisk(c, d)
    ensures Inv(c, Boot(c, d))
  {
    hide LogInv, B.Inv, B.Abs, B.Init;
    FreshCache(c, d);
    BootedLog(c, d);
  }

  lemma SameSize(m: B.Bio, m': B.Bio, bs: B.Step)
    requires B.StepBy(m, m', bs)
    ensures |m'.cache.bufs| == |m.cache.bufs|
  {
  }

  /** A cache step, in the simple form. */
  lemma Simple(s: State, s': State, bs: B.Step)
    requires B.Inv(s.bio) && B.StepBy(s.bio, s'.bio, bs)
    ensures B.Inv(s'.bio) && S.StoreStep(B.Abs(s.bio), B.Abs(s'.bio), B.ActOf(s.bio, bs)) && S.StoreInv(B.Abs(s'.bio))
    ensures |s'.bio.cache.bufs| == |s.bio.cache.bufs|
  {
    SameSize(s.bio, s'.bio, bs);
    hide B.StepBy, B.Abs, B.Inv;
    B.StepRefines(s.bio, s'.bio, bs);
    B.AbsInv(s'.bio);
  }

  lemma ClientInv(c: Config, s: State, s': State, bs: B.Step)
    requires Inv(c, s) && ClientStep(c, s, s', bs)
    ensures Inv(c, s')
  {
    hide B.Inv, LogInv, B.Abs, S.StoreInv;
    Simple(s, s', bs);
    var st, st' := B.Abs(s.bio), B.Abs(s'.bio);
    if bs.ModifyStep? {
      KeepChange(c, st, st', s.log, bs.p, bs.x, bs.data);
    } else {
      KeepLock(c, st, st', s.log, B.ActOf(s.bio, bs));
    }
  }

  lemma InsideInv(c: Config, s: State, s': State, bs: B.Step)
    requires Inv(c, s) && InsideStep(s, s', bs)
    ensures Inv(c, s')
  {
    hide B.Inv, LogInv, B.Abs, S.StoreInv;
    Simple(s, s', bs);
    KeepLock(c, B.Abs(s.bio), B.Abs(s'.bio), s.log, B.ActOf(s.bio, bs));
  }

  lemma LogWriteInv(c: Config, s: State, s': State, p: nat, b: nat, x: nat)
    requires Inv(c, s) && LogWriteStep(c, s, s', p, b, x)
    ensures Inv(c, s')
  {
    hide B.Inv, LogInv, B.Abs, S.StoreInv;
    Simple(s, s', B.PinStep(p, b, x));
    B.BreadReturnsLatest(s.bio, p, b, x);
    KeepAppend(c, B.Abs(s.bio), B.Abs(s'.bio), s.log, s'.log.g, p, x);
  }

  /** A process without references holds no block. */
  lemma NoRefsNoLocks(m: B.Bio, p: nat)
    requires B.Inv(m) && forall r :: r in m.refs ==> r.pid != p
    ensures forall x :: x in B.Abs(m).locked ==> B.Abs(m).locked[x] != p
  {
    forall x | x in B.Abs(m).locked
      ensures B.Abs(m).locked[x] != p
    {
      var b := B.Look(m.cache.bufs, x).value;
      assert B.Ref(m.holder[b].value, b, B.Holding) in m.refs;
    }
  }

  lemma EndOpInv(c: Config, s: State, s': State, p: nat)
    requires Inv(c, s) && EndStep(c, s, s', p)
    ensures Inv(c, s')
  {
    hide B.Inv, LogInv, B.Abs;
    NoRefsNoLocks(s.bio, p);
    KeepEnd(c, B.Abs(s.bio), s.log, s'.log.g, p);
  }

  lemma AskInv(c: Config, s: State, s': State, b: nat)
    requires Inv(c, s) && AskStep(c, s, s', b) && !Overlong(c, s.log)
    ensures Inv(c, s')
  {
    hide B.Inv, LogInv, B.Abs, S.StoreInv;
    Simple(s, s', B.GetStep(s.log.worker, Wanted(c, s.log).value, b));
    KeepAdvance(c, B.Abs(s.bio), B.Abs(s'.bio), s.log, S.Quiet);
  }

  lemma GiveInv(c: Config, s: State, s': State, b: nat)
    requires Inv(c, s) && GiveStep(c, s, s', b)
    ensures Inv(c, s')
  {
    hide B.Inv, LogInv, B.Abs, S.StoreInv;
    var bs := B.UnlockStep(s.log.worker, b);
    Simple(s, s', bs);
    KeepAdvance(c, B.Abs(s.bio), B.Abs(s'.bio), s.log, B.ActOf(s.bio, bs));
  }

  lemma CopyInv(c: Config, s: State, s': State, src: nat, dst: nat)
    requires Inv(c, s) && CopyStep(c, s, s', src, dst)
    ensures Inv(c, s')
  {
    hide B.Inv, B.Abs, S.StoreInv, LogInv;
    var l := s.log;
    var from := if l.job.WriteLog? then l.g.lh[l.job.t] else Slot(c, l.job.t);
    var to := if l.job.WriteLog? then Slot(c, l.job.t) else l.g.lh[l.job.t];
    Simple(s, s', B.ModifyStep(l.worker, dst, to, s.bio.cache.bufs[src].data));
    B.BreadReturnsLatest(s.bio, l.worker, src, from);
    if l.job.WriteLog? {
      KeepCopyLog(c, B.Abs(s.bio), B.Abs(s'.bio), l, l.worker);
    } else {
      KeepCopyHome(c, B.Abs(s.bio), B.Abs(s'.bio), l, l.worker);
    }
  }

  lemma HeaderInv(c: Config, s: State, s': State, b: nat)
    requires Inv(c, s) && HeaderStep(c, s, s', b)
    ensures Inv(c, s')
  {
    hide B.Inv, LogInv, B.Abs, S.StoreInv, PutHead;
    var l := s.log;
    B.BreadReturnsLatest(s.bio, l.worker, b, c.start);
    if l.job == ReadHead(UseHead) {
      KeepReadHead(c, B.Abs(s.bio), l);
    } else {
      Simple(s, s', B.ModifyStep(l.worker, b, c.start, PutHead(s.bio.cache.bufs[b].data, l.g.lh)));
      KeepPutHead(c, B.Abs(s.bio), B.Abs(s'.bio), l, l.worker);
    }
  }

  lemma WriteInv(c: Config, s: State, s': State, b: nat)
    requires Inv(c, s) && WriteStep(c, s, s', b)
    ensures Inv(c, s')
  {
    hide B.Inv, B.Abs, S.StoreInv, Durable, WholeInv, ReadInv, OpenInv, WorkerInv, G.Inv;
    var l := s.log;
    var x := JobOpen(c, l).value;
    Simple(s, s', B.BwriteStep(l.worker, b, x));
    match l.job
    case WriteLog(t, pc) => KeepStoreLog(c, B.Abs(s.bio), B.Abs(s'.bio), l, l.worker);
    case Installing(t, pc) => KeepStoreHome(c, B.Abs(s.bio), B.Abs(s'.bio), l, l.worker);
    case Commit(hpc) => KeepCommitPoint(c, B.Abs(s.bio), B.Abs(s'.bio), l, l.worker);
    case Clear(hpc) => KeepClearPoint(c, B.Abs(s.bio), B.Abs(s'.bio), l, l.worker);
  }

  lemma TurnInv(c: Config, s: State, s': State)
    requires Inv(c, s) && TurnStep(c, s, s')
    ensures Inv(c, s')
  {
    hide B.Inv, B.Abs, S.StoreInv, Durable, WholeInv, ReadInv, OpenInv, G.Inv, LogHolds, HomeHolds;
    var l, st := s.log, B.Abs(s.bio);
    match l.job
    case WriteLog(t, pc) => KeepNextLog(c, st, l);
    case Commit(hpc) => KeepStartInstall(c, st, l);
    case Installing(t, pc) =>
      if t + 1 < |l.g.lh| { KeepNextHome(c, st, l); } else { ClearInv(c, s, s'); }
    case ReadHead(hpc) =>
      if l.g.lh != [] { KeepStartInstall(c, st, l); } else { ClearInv(c, s, s'); }
    case Clear(hpc) =>
      if l.booting { KeepBooted(c, st, l); } else { KeepFinish(c, st, l); }
    case Finish => KeepDone(c, st, l, s'.log.g);
  }

  lemma ClearInv(c: Config, s: State, s': State)
    requires Inv(c, s) && Installed(s.log) && ClearLog(c, s.log, s'.log) && s'.bio == s.bio
    ensures Inv(c, s')
  {
    hide B.Inv, B.Abs, LogInv;
    if s.log.booting {
      KeepClearBoot(c, B.Abs(s.bio), s.log);
    } else {
      KeepClearCommit(c, B.Abs(s.bio), s.log, s'.log.g);
    }
  }

  lemma CrashInv(c: Config, s: State, s': State)
    requires Inv(c, s) && CrashStep(c, s, s')
    ensures Inv(c, s')
  {
    FreshCache(c, s.bio.disk);
    hide B.Inv, LogInv;
    KeepCrash(c, B.Abs(s.bio), s.log);
  }

  lemma StepInv(c: Config, s: State, s': State, a: Step)
    requires Inv(c, s) && StepBy(c, s, s', a) && !Overruns(c, s, a)
    ensures Inv(c, s')
  {
    hide B.Inv, LogInv, B.Abs;
    match a
    case Client(bs) => ClientInv(c, s, s', bs);
    case BeginOp(p) => KeepBegin(c, B.Abs(s.bio), s.log, s'.log.g, p);
    case SleepOp(p) => KeepSleep(c, B.Abs(s.bio), s.log, s'.log.g, p);
    case CheckLogWrite(p, b, x) => KeepCheck(c, B.Abs(s.bio), s.log, s'.log.g, p, x);
    case LogWrite(p, b, x) => LogWriteInv(c, s, s', p, b, x);
    case EndOp(p) => EndOpInv(c, s, s', p);
    case Inside(bs) => InsideInv(c, s, s', bs);
    case Ask(b) => AskInv(c, s, s', b);
    case CopyBlock(src, dst) => CopyInv(c, s, s', src, dst);
    case UseHeader(b) => HeaderInv(c, s, s', b);
    case WriteBlock(b) => WriteInv(c, s, s', b);
    case Give(b) => GiveInv(c, s, s', b);
    case Turn => TurnInv(c, s, s');
    case Crash => CrashInv(c, s, s');
  }

  // ---- no overrun ----

  /** The logged blocks before write_log has begun: all pinned, all outside the log area. */
  lemma LogIsPinned(c: Config, s: State)
    requires Inv(c, s) && (s.log.job == NoJob || s.log.job == WriteLog(0, GetLog))
    ensures |B.Abs(s.bio).pinned| == |s.log.g.lh|
    ensures forall x :: x in B.Abs(s.bio).pinned ==> Home(c, x)
    ensures s.log.g.lh != [] ==> InLog(c, Slot(c, 0))
  {
    hide B.Inv, B.Abs;
    SetOfSize(s.log.g.lh);
  }

  /**
   A log of as many blocks as there are buffers has taken every one of them:
   write_log's first bread ends in panic("bget: no buffers").
   */
  lemma FullCache(c: Config, s: State)
    requires Inv(c, s) && s.log.job == WriteLog(0, GetLog) && c.nbuf <= |s.log.g.lh|
    ensures Wanted(c, s.log) == Some(Slot(c, 0)) && !C.Cached(s.bio.cache.bufs, Slot(c, 0))
    ensures forall b: nat :: !C.Eligible(s.bio.cache.bufs, b)
  {
    hide LogInv, B.Inv;
    LogIsPinned(c, s);
    forall b: nat | b < |s.bio.cache.bufs|
      ensures s.bio.cache.bufs[b].dirty && s.bio.cache.bufs[b].block != Some(Slot(c, 0))
    {
      R.AllDirty(s.bio, b);
      R.DirtyIsPinned(s.bio, b);
    }
  }

  lemma LogAtMost(c: Config, s: State)
    requires Inv(c, s)
    ensures |s.log.g.lh| <= c.logsize
    ensures |s.log.g.lh| >= c.size ==> s.log.job == NoJob || s.log.job == WriteLog(0, GetLog)
  {
    hide B.Inv, B.Abs, S.StoreInv, Durable, ReadInv, OpenInv;
    hide WorkerInv, WholeInv, Replay, LogHolds, HomeHolds, AllInstalled, IsHead;
  }

  /** Before write_log begins the logged blocks are in buffers of their own. */
  lemma LogInBuffers(c: Config, s: State)
    requires Inv(c, s) && (s.log.job == NoJob || s.log.job == WriteLog(0, GetLog))
    ensures |s.log.g.lh| <= c.nbuf
  {
    hide LogInv, B.Inv, B.Abs;
    LogIsPinned(c, s);
    R.PinnedAreDirty(s.bio);
  }

  lemma AskFindsBuffer(c: Config, s: State, s': State, b: nat)
    requires StepBy(c, s, s', Ask(b))
    ensures Wanted(c, s.log).Some?
    ensures C.Cached(s.bio.cache.bufs, Wanted(c, s.log).value) || C.Eligible(s.bio.cache.bufs, b)
  {
    hide B.Pending, Wanted, Advanced, Ready;
  }

  lemma NoOverrun(c: Config, s: State, s': State, a: Step)
    requires Inv(c, s) && StepBy(c, s, s', a) && Contained(c)
    ensures !Overruns(c, s, a)
  {
    LogAtMost(c, s);
    hide Inv;
    if Overruns(c, s, a) {
      AskFindsBuffer(c, s, s', a.b);
      hide StepBy;
      FullCache(c, s);
    }
  }

  lemma {:induction false} RunInv(c: Config, run: seq<State>, steps: seq<Step>, i: nat)
    requires IsRun(c, run, steps) && i < |run| && Kept(c, run, steps, i)
    ensures Inv(c, run[i])
  {
    hide Inv, StepBy, Boot, Overruns;
    if i == 0 {
      var d: Disk :| WfDisk(c, d) && run[0] == Boot(c, d);
      BootInv(c, d);
    } else {
      RunInv(c, run, steps, i - 1);
      if Contained(c) { NoOverrun(c, run[i - 1], run[i], steps[i - 1]); }
      StepInv(c, run[i - 1], run[i], steps[i - 1]);
    }
  }

  // ---- the log record, in every run ----

  /** A list of home blocks that a header may hold. */
  predicate GoodHead(c: Config, h: seq<nat>) {
    Distinct(h) && AllHome(c, h) && |h| <= c.logsize && (h != [] ==> 2 <= c.size)
  }

  /** The header on disk and the one in its buffer. */
  ghost predicate HeadsInv(c: Config, m: B.Bio) {
    && WfConfig(c) && |m.disk| == c.disksize
    && GoodHead(c, HeadOf(m.disk[c.start])) && GoodHead(c, HeadOf(B.Abs(m).val[c.start]))
  }

  /** What log.c keeps of its record even after an overrun. */
  ghost predicate RecordInv(c: Config, s: State) {
    && G.Inv(c, s.log.g) && AllHome(c, s.log.g.lh) && WorkerInv(s.log)
    && (s.log.job.ReadHead? ==> s.log.booting) && HeadsInv(c, s.bio)
  }

  /** Only the header step changes the header's buffer. */
  lemma HeadsKept(c: Config, s: State, s': State, a: Step)
    requires B.Inv(s.bio) && RecordInv(c, s) && StepBy(c, s, s', a) && !a.Crash?
    ensures HeadsInv(c, s'.bio)
  {
    hide StepBy, BioStep, B.Inv, B.StepBy, B.Abs, HeadOf, G.Inv, S.StoreStep, GoodHead, S.StoreInv;
    BioStepIs(c, s, s', a);
    var bs := BioStep(c, s, a);
    if bs.ModifyStep? { ModifiesElsewhere(c, s, s', a); }
    Simple(s, s', bs);
    B.AbsDisk(s.bio);
    B.AbsDisk(s'.bio);
    StoreHeads(c, B.Abs(s.bio), B.Abs(s'.bio), B.ActOf(s.bio, bs));
  }

  lemma StoreHeads(c: Config, st: S.Store, st': S.Store, act: S.Act)
    requires S.StoreStep(st, st', act) && c.start < |st.disk| == |st.val|
    requires GoodHead(c, HeadOf(st.disk[c.start])) && GoodHead(c, HeadOf(st.val[c.start]))
    requires act.Change? ==> act.x != c.start || GoodHead(c, HeadOf(act.data))
    ensures |st'.disk| == |st.disk| && |st'.val| == |st.val|
    ensures GoodHead(c, HeadOf(st'.disk[c.start])) && GoodHead(c, HeadOf(st'.val[c.start]))
  {
    hide HeadOf, GoodHead;
  }

  lemma ModifiesElsewhere(c: Config, s: State, s': State, a: Step)
    requires RecordInv(c, s) && StepBy(c, s, s', a) && BioStep(c, s, a).ModifyStep?
    ensures var bs := BioStep(c, s, a); bs.x != c.start || GoodHead(c, HeadOf(bs.data))
  {
    hide HeadOf, G.Inv, B.Abs, B.Get, B.Unlock, B.Pin, B.Bwrite;
    assert InLog(c, c.start);
    GoodLog(c, s.log.g);
  }

  lemma GoodLog(c: Config, g: G.State)
    requires G.Inv(c, g) && AllHome(c, g.lh)
    ensures GoodHead(c, g.lh)
  {
  }

  lemma RecordOps(c: Config, s: State, s': State, a: Step)
    requires RecordInv(c, s) && StepBy(c, s, s', a)
    requires a.BeginOp? || a.SleepOp? || a.CheckLogWrite? || a.LogWrite? || a.EndOp?
    ensures G.Inv(c, s'.log.g) && AllHome(c, s'.log.g.lh) && WorkerInv(s'.log)
    ensures s'.log.job.ReadHead? ==> s'.log.booting
  {
    hide HeadsInv, B.Pin, B.Has, B.Pending;
    RecordOp(c, s, s', a);
    hide G.Inv;
  }

  lemma RecordOp(c: Config, s: State, s': State, a: Step)
    requires G.Inv(c, s.log.g) && StepBy(c, s, s', a)
    requires a.BeginOp? || a.SleepOp? || a.CheckLogWrite? || a.LogWrite? || a.EndOp?
    ensures G.Inv(c, s'.log.g)
    ensures a.EndOp? && s'.log.g.committing ==> s'.log.g.ctl[a.p] == G.Committing
    ensures !a.EndOp? ==> s'.log.g.committing == s.log.g.committing
    ensures (exists p :: 0 <= p < |s.log.g.ctl| && s.log.g.ctl[p].Op?) ==> !s.log.g.committing
  {
    hide G.Inv, B.Pending;
    var g, g' := s.log.g, s'.log.g;
    match a {
      case BeginOp(p) => G.BeginInv(c, g, g', p);
      case SleepOp(p) => G.SleepInv(c, g, g', p);
      case CheckLogWrite(p, b, x) => G.CheckInv(c, g, g', p, x);
      case LogWrite(p, b, x) => G.AppendInv(c, g, g', p, x, s.bio.cache.bufs[b].data);
      case EndOp(p) => G.EndInv(c, g, g', p);
    }
    forall p | 0 <= p < |g.ctl| && g.ctl[p].Op?
      ensures !g.committing
    {
      OpMeansNoCommit(c, g, p);
    }
  }

  lemma OpMeansNoCommit(c: Config, g: G.State, p: nat)
    requires G.Inv(c, g) && p < |g.ctl| && g.ctl[p].Op?
    ensures !g.committing && g.outstanding >= 1
  {
    G.OpIsCounted(g.ctl, p);
  }

  lemma RecordJob(c: Config, s: State, s': State, a: Step)
    requires B.Inv(s.bio) && RecordInv(c, s) && StepBy(c, s, s', a)
    requires a.UseHeader? || a.Turn? || a.Crash?
    ensures G.Inv(c, s'.log.g) && AllHome(c, s'.log.g.lh) && WorkerInv(s'.log)
    ensures s'.log.job.ReadHead? ==> s'.log.booting
  {
    hide HeadOf, PutHead, B.Inv, B.Abs, G.Inv, B.Modify, B.Pending;
    var l, l' := s.log, s'.log;
    match a
    case Crash => CrashedRecord(c, l);
    case UseHeader(b) =>
      if l.job == ReadHead(UseHead) {
        B.BreadReturnsLatest(s.bio, l.worker, b, c.start);
        BootLog(c, l.g, HeadOf(s.bio.cache.bufs[b].data));
      }
    case Turn =>
      if l'.job == Clear(GetHead) {
        if l.booting { BootLog(c, l.g, []); } else { G.ClearInv(c, l.g, l'.g, l.worker); }
      } else if l.job == Finish {
        G.DoneInv(c, l.g, l'.g, l.worker);
      }
  }

  lemma RecordRest(c: Config, s: State, s': State, a: Step)
    requires RecordInv(c, s) && StepBy(c, s, s', a)
    requires a.Client? || a.Inside? || a.Ask? || a.CopyBlock? || a.WriteBlock? || a.Give?
    ensures G.Inv(c, s'.log.g) && AllHome(c, s'.log.g.lh) && WorkerInv(s'.log)
    ensures s'.log.job.ReadHead? ==> s'.log.booting
  {
    hide G.Inv, HeadsInv, B.StepBy, B.Get, B.Unlock, B.Modify, B.Bwrite, B.Has, B.Pending;
  }

  lemma RecordStep(c: Config, s: State, s': State, a: Step)
    requires B.Inv(s.bio) && RecordInv(c, s) && StepBy(c, s, s', a)
    ensures RecordInv(c, s')
  {
    if a.Crash? { CrashHeads(c, s, s'); } else { HeadsKept(c, s, s', a); }
    hide StepBy, B.Inv, G.Inv, HeadsInv, WorkerInv;
    if a.BeginOp? || a.SleepOp? || a.CheckLogWrite? || a.LogWrite? || a.EndOp? {
      RecordOps(c, s, s', a);
    } else if a.UseHeader? || a.Turn? || a.Crash? {
      RecordJob(c, s, s', a);
    } else {
      RecordRest(c, s, s', a);
    }
  }

  lemma CrashHeads(c: Config, s: State, s': State)
    requires HeadsInv(c, s.bio) && StepBy(c, s, s', Crash)
    ensures HeadsInv(c, s'.bio)
  {
    FreshCache(c, s.bio.disk);
    CrashBio(c, s, s');
    hide B.Init, B.Abs;
  }

  lemma BootRecord(c: Config, d: Disk)
    requires WfDisk(c, d)
    ensures RecordInv(c, Boot(c, d))
  {
    FreshCache(c, d);
    G.InitInv(c);
    hide B.Init, B.Abs, HeadOf, Recover, G.Inv;
    var s := Boot(c, d);
    assert s.bio == B.Init(d, c.nbuf) && GoodHead(c, HeadOf(d[c.start]));
  }

  lemma {:induction false} RunRecord(c: Config, run: seq<State>, steps: seq<Step>, i: nat)
    requires IsRun(c, run, steps) && i < |run|
    ensures RecordInv(c, run[i])
  {
    hide RecordInv, StepBy, Boot;
    if i == 0 {
      var d: Disk :| WfDisk(c, d) && run[0] == Boot(c, d);
      BootRecord(c, d);
    } else {
      RunRecord(c, run, steps, i - 1);
      RunBio(c, run, steps, i - 1);
      RecordStep(c, run[i - 1], run[i], steps[i - 1]);
    }
  }

  // ---- what every run guarantees ----

  /** Recovery from the disk as it is gives the committed contents of every home block. */
  ghost predicate AsCommitted(c: Config, s: State) {
    && WfDisk(c, s.bio.disk) && |s.log.base| == |s.bio.disk|
    && forall x :: Home(c, x) ==> Recover(c, s.bio.disk)[x] == Committed(s.log)[x]
  }

  /**
   Crash atomicity. Whatever the processes, the commit or a recovery were doing,
   recovering from the disk as it is now gives exactly the committed contents.
   */
  lemma CrashSafety(c: Config, run: seq<State>, steps: seq<Step>, i: nat)
    requires IsRun(c, run, steps) && i < |run| && Kept(c, run, steps, i)
    ensures AsCommitted(c, run[i])
  {
    hide StepBy;
    RunInv(c, run, steps, i);
    RecoverDurable(c, run[i].bio.disk, Committed(run[i].log));
  }

  /** The disk write of the first write_head. */
  ghost predicate IsCommitPoint(s: State, a: Step) {
    a.WriteBlock? && s.log.job == Commit(StoreHead)
  }

  lemma DurableIsPast(c: Config, s: State)
    requires Inv(c, s)
    ensures s.log.durable <= |s.log.g.writes|
  {
  }

  /** The committed contents change at the commit point and nowhere else: all old before it, all new after it. */
  lemma CommittedChangesAtOnce(c: Config, s: State, s': State, a: Step)
    requires Inv(c, s) && StepBy(c, s, s', a)
    ensures Committed(s'.log) == if IsCommitPoint(s, a) then Latest(s.log) else Committed(s.log)
  {
    hide Inv, StepBy, Replay;
    DurableIsPast(c, s);
    var l, l' := s.log, s'.log;
    match a
    case Crash =>
      CrashHistory(c, s, s');
      assert l'.g.writes[..l.durable] == l'.g.writes;
    case LogWrite(p, b, x) =>
      LogWriteHistory(c, s, s', p, b, x);
      PrefixOfPrefix(l'.g.writes, l.g.writes, l.durable, |l.g.writes|);
    case WriteBlock(b) =>
      WriteHistory(c, s, s', b);
      assert l.g.writes[..|l.g.writes|] == l.g.writes;
    case _ => HistoryKept(c, s, s', a);
  }

  lemma CrashHistory(c: Config, s: State, s': State)
    requires StepBy(c, s, s', Crash)
    ensures s.log.durable <= |s.log.g.writes| && s'.log.base == s.log.base && s'.log.durable == s.log.durable
    ensures s'.log.g.writes == s.log.g.writes[..s.log.durable]
  {
  }

  lemma LogWriteHistory(c: Config, s: State, s': State, p: nat, b: nat, x: nat)
    requires StepBy(c, s, s', LogWrite(p, b, x))
    ensures s'.log.base == s.log.base && s'.log.durable == s.log.durable
    ensures |s'.log.g.writes| > |s.log.g.writes| && s'.log.g.writes[..|s.log.g.writes|] == s.log.g.writes
  {
    hide B.Pin;
  }

  lemma WriteHistory(c: Config, s: State, s': State, b: nat)
    requires StepBy(c, s, s', WriteBlock(b))
    ensures s'.log.base == s.log.base && s'.log.g.writes == s.log.g.writes
    ensures s'.log.durable == if s.log.job == Commit(StoreHead) then |s.log.g.writes| else s.log.durable
  {
    hide B.Bwrite;
  }

  /** Only a log_write, the commit point and a crash touch what is written or durable. */
  lemma HistoryKept(c: Config, s: State, s': State, a: Step)
    requires StepBy(c, s, s', a) && !a.Crash? && !a.LogWrite? && !a.WriteBlock?
    ensures s'.log.base == s.log.base && s'.log.durable == s.log.durable && s'.log.g.writes == s.log.g.writes
  {
    hide B.StepBy, B.Get, B.Unlock, B.Modify, B.Has, B.Pending, PutHead, HeadOf;
  }

  /** No operation is in progress when the header is written: the new contents are those of finished operations. */
  lemma NoOperationAtCommit(c: Config, run: seq<State>, steps: seq<Step>, i: nat)
    requires IsRun(c, run, steps) && i < |run| && run[i].log.job.Commit?
    ensures run[i].log.g.outstanding == 0
    ensures forall p :: 0 <= p < |run[i].log.g.ctl| ==> !run[i].log.g.ctl[p].Op?
  {
    hide IsRun;
    RunRecord(c, run, steps, i);
    NobodyDuringJob(c, run[i]);
  }

  lemma NobodyDuringJob(c: Config, s: State)
    requires RecordInv(c, s) && s.log.job != NoJob
    ensures s.log.g.outstanding == 0 && forall p :: 0 <= p < |s.log.g.ctl| ==> !s.log.g.ctl[p].Op?
  {
    var g := s.log.g;
    if s.log.booting {
      assert g.ctl == seq(|g.ctl|, _ => G.Idle);
      G.AllIdle(c, |g.ctl|);
    } else {
      forall p | 0 <= p < |g.ctl|
        ensures !g.ctl[p].Op?
      {
        G.NoOpsWhenZero(g.ctl, p);
      }
    }
  }

  /** Every operation is committed as a whole or not at all. */
  lemma WholeOperations(c: Config, run: seq<State>, steps: seq<Step>, i: nat, op: nat)
    requires IsRun(c, run, steps) && i < |run| && Kept(c, run, steps, i)
    ensures var l := run[i].log;
            l.durable <= |l.g.writes|
            && ((forall k :: 0 <= k < |l.g.writes| && l.g.writes[k].op == op ==> k < l.durable)
                || (forall k :: 0 <= k < |l.g.writes| && l.g.writes[k].op == op ==> k >= l.durable))
    ensures var l := run[i].log;
            forall p :: 0 <= p < |l.g.ctl| && l.g.ctl[p].Op? && l.g.ctl[p].id == op
                        ==> forall k :: 0 <= k < |l.g.writes| && l.g.writes[k].op == op ==> k >= l.durable
  {
    hide StepBy;
    RunInv(c, run, steps, i);
  }

  /** A step loses nothing durable. */
  lemma DurableGrows(c: Config, s: State, s': State, a: Step)
    requires Inv(c, s) && StepBy(c, s, s', a)
    ensures s.log.durable <= s'.log.durable && s'.log.base == s.log.base
    ensures s.log.durable <= |s.log.g.writes| && s.log.durable <= |s'.log.g.writes|
    ensures s'.log.g.writes[..s.log.durable] == s.log.g.writes[..s.log.durable]
  {
    hide Inv, StepBy;
    DurableIsPast(c, s);
    match a
    case Crash => CrashHistory(c, s, s');
    case LogWrite(p, b, x) => LogWriteHistory(c, s, s', p, b, x);
    case WriteBlock(b) => WriteHistory(c, s, s', b);
    case _ => HistoryKept(c, s, s', a);
  }

  lemma {:induction false} DurableStays(c: Config, run: seq<State>, steps: seq<Step>, i: nat, j: nat)
    requires IsRun(c, run, steps) && i <= j < |run| && Kept(c, run, steps, j)
    ensures run[i].log.durable <= run[j].log.durable && run[j].log.base == run[i].log.base
    ensures run[i].log.durable <= |run[i].log.g.writes| && run[i].log.durable <= |run[j].log.g.writes|
    ensures run[j].log.g.writes[..run[i].log.durable] == run[i].log.g.writes[..run[i].log.durable]
  {
    hide Inv, StepBy;
    if i == j {
      RunInv(c, run, steps, i);
      DurableIsPast(c, run[i]);
    } else {
      DurableStays(c, run, steps, i, j - 1);
      RunInv(c, run, steps, j - 1);
      DurableGrows(c, run[j - 1], run[j], steps[j - 1]);
      PrefixOfPrefix(run[j].log.g.writes, run[j - 1].log.g.writes, run[i].log.durable, run[j - 1].log.durable);
    }
  }

  lemma PrefixOfPrefix<T>(a: seq<T>, b: seq<T>, m: nat, n: nat)
    requires m <= n <= |a| && n <= |b| && a[..n] == b[..n]
    ensures a[..m] == b[..m]
  {
    assert a[..m] == a[..n][..m] && b[..m] == b[..n][..m];
  }

  /** When a commit has returned, every log_write so far is durable, and stays so whatever crashes. */
  lemma Durability(c: Config, run: seq<State>, steps: seq<Step>, i: nat, j: nat)
    requires IsRun(c, run, steps) && i <= j < |run| && Kept(c, run, steps, j) && run[i].log.job == Finish
    ensures |run[i].log.g.writes| <= run[j].log.durable <= |run[j].log.g.writes|
    ensures run[j].log.g.writes[..|run[i].log.g.writes|] == run[i].log.g.writes
  {
    hide Inv, StepBy;
    RunInv(c, run, steps, i);
    FinishIsDurable(c, run[i]);
    DurableStays(c, run, steps, i, j);
    RunInv(c, run, steps, j);
    DurableIsPast(c, run[j]);
  }

  lemma FinishIsDurable(c: Config, s: State)
    requires Inv(c, s) && s.log.job == Finish
    ensures s.log.durable == |s.log.g.writes|
  {
  }

  // ---- which operations a crash spares ----

  /** Operation op has logged something. */
  ghost predicate Wrote(s: State, op: nat) {
    exists k :: 0 <= k < |s.log.g.writes| && s.log.g.writes[k].op == op
  }

  /** What operation op had written in state s is committed in state t. */
  ghost predicate Survives(s: State, t: State, op: nat) {
    forall k :: 0 <= k < |s.log.g.writes| && s.log.g.writes[k].op == op
                ==> k < t.log.durable && k < |t.log.g.writes| && t.log.g.writes[k] == s.log.g.writes[k]
  }

  /** A commit point after step i and before state j, with no crash before it. */
  ghost predicate CommittedBetween(run: seq<State>, steps: seq<Step>, i: nat, j: nat) {
    exists m :: i < m < j && m < |run| && m < |steps| && IsCommitPoint(run[m], steps[m]) && NoCrash(steps, i, m)
  }

  predicate NoCrash(steps: seq<Step>, i: nat, j: nat) {
    forall n :: i <= n < j && n < |steps| ==> steps[n] != Crash
  }

  /** The writes of state s are still there in state t, and no more of them committed. */
  ghost predicate StillOpen(s: State, t: State) {
    && t.log.durable == s.log.durable && s.log.g.nextId <= t.log.g.nextId
    && s.log.g.writes <= t.log.g.writes
  }

  /** Operation op is over and has left nothing behind. */
  ghost predicate Lost(t: State, op: nat) {
    && op < t.log.g.nextId && (forall k :: 0 <= k < |t.log.g.writes| ==> t.log.g.writes[k].op != op)
    && (forall q :: 0 <= q < |t.log.g.ctl| && t.log.g.ctl[q].Op? ==> t.log.g.ctl[q].id != op)
  }

  /** Steps name operations in order and never twice. */
  lemma OpNames(c: Config, s: State, s': State, a: Step)
    requires StepBy(c, s, s', a)
    ensures s.log.g.nextId <= s'.log.g.nextId
    ensures forall q :: 0 <= q < |s'.log.g.ctl| && s'.log.g.ctl[q].Op?
                        ==> s'.log.g.ctl[q].id == s.log.g.nextId
                            || (q < |s.log.g.ctl| && s.log.g.ctl[q].Op? && s'.log.g.ctl[q].id == s.log.g.ctl[q].id)
    ensures a.LogWrite? ==> |s'.log.g.writes| == |s.log.g.writes| + 1 && a.p < |s.log.g.ctl| && s.log.g.ctl[a.p].Op?
                            && s'.log.g.writes[|s.log.g.writes|].op == s.log.g.ctl[a.p].id
  {
    hide B.StepBy, B.Get, B.Unlock, B.Modify, B.Pin, B.Bwrite, B.Has, B.Pending, PutHead, HeadOf, B.Init;
  }

  lemma LostStays(c: Config, s: State, s': State, a: Step, op: nat)
    requires StepBy(c, s, s', a) && Lost(s, op)
    ensures Lost(s', op)
  {
    hide StepBy;
    OpNames(c, s, s', a);
    match a
    case Crash => CrashHistory(c, s, s');
    case LogWrite(p, b, x) => LogWriteHistory(c, s, s', p, b, x);
    case WriteBlock(b) => WriteHistory(c, s, s', b);
    case _ => HistoryKept(c, s, s', a);
  }

  lemma OpenStays(c: Config, s: State, t: State, t': State, a: Step)
    requires StepBy(c, t, t', a) && StillOpen(s, t) && a != Crash && !IsCommitPoint(t, a)
    ensures StillOpen(s, t')
  {
    hide StepBy;
    OpNames(c, t, t', a);
    match a
    case LogWrite(p, b, x) => LogWriteHistory(c, t, t', p, b, x);
    case WriteBlock(b) => WriteHistory(c, t, t', b);
    case _ => HistoryKept(c, t, t', a);
  }

  /** No operation in progress has anything committed. */
  lemma NothingDurable(c: Config, s: State, p: nat)
    requires Inv(c, s) && p < |s.log.g.ctl| && s.log.g.ctl[p].Op?
    ensures s.log.durable <= |s.log.g.writes| && s.log.g.ctl[p].id < s.log.g.nextId
    ensures forall k :: 0 <= k < s.log.durable ==> s.log.g.writes[k].op != s.log.g.ctl[p].id
  {
    hide B.Inv, B.Abs;
    assert G.OpInv(c, s.log.g, s.log.g.ctl[p]);
  }

  /** A crash takes what was open. */
  lemma OpenIsLost(c: Config, s: State, t: State, t': State, p: nat)
    requires Inv(c, s) && p < |s.log.g.ctl| && s.log.g.ctl[p].Op? && StillOpen(s, t) && StepBy(c, t, t', Crash)
    ensures Lost(t', s.log.g.ctl[p].id)
  {
    hide Inv;
    NothingDurable(c, s, p);
    CrashHistory(c, t, t');
  }

  /** Without a commit point an operation that has ended is open until a crash takes it. */
  lemma {:induction false} OpenOrLost(c: Config, run: seq<State>, steps: seq<Step>, i: nat, j: nat, p: nat)
    requires IsRun(c, run, steps) && i < j < |run| && steps[i] == EndOp(p) && Inv(c, run[i])
    requires p < |run[i].log.g.ctl| && run[i].log.g.ctl[p].Op? && !CommittedBetween(run, steps, i, j)
    ensures (NoCrash(steps, i, j) && StillOpen(run[i], run[j])) || Lost(run[j], run[i].log.g.ctl[p].id)
  {
    hide Inv, StepBy, StillOpen, Lost;
    var n := j - 1;
    if n == i {
      EndIsOpen(c, run[i], run[j], p);
    } else {
      OpenOrLost(c, run, steps, i, n, p);
      if Lost(run[n], run[i].log.g.ctl[p].id) {
        LostStays(c, run[n], run[j], steps[n], run[i].log.g.ctl[p].id);
      } else if steps[n] == Crash {
        OpenIsLost(c, run[i], run[n], run[j], p);
      } else {
        OpenStays(c, run[i], run[n], run[j], steps[n]);
      }
    }
  }

  lemma EndIsOpen(c: Config, s: State, s': State, p: nat)
    requires StepBy(c, s, s', EndOp(p))
    ensures StillOpen(s, s')
  {
  }

  /** Without a crash the history only grows. */
  lemma {:induction false} HistoryGrows(c: Config, run: seq<State>, steps: seq<Step>, i: nat, j: nat)
    requires IsRun(c, run, steps) && i <= j < |run| && NoCrash(steps, i, j)
    ensures run[i].log.g.writes <= run[j].log.g.writes
  {
    hide StepBy;
    if i < j {
      HistoryGrows(c, run, steps, i, j - 1);
      var s, s', a := run[j - 1], run[j], steps[j - 1];
      match a
      case LogWrite(p, b, x) => LogWriteHistory(c, s, s', p, b, x);
      case WriteBlock(b) => WriteHistory(c, s, s', b);
      case _ => HistoryKept(c, s, s', a);
    }
  }

  /** A commit point makes durable all that has been written without a crash in between. */
  lemma CommitSaves(c: Config, run: seq<State>, steps: seq<Step>, i: nat, m: nat, j: nat, op: nat)
    requires IsRun(c, run, steps) && i <= m < j < |run| && Kept(c, run, steps, j)
    requires IsCommitPoint(run[m], steps[m]) && NoCrash(steps, i, m)
    ensures Survives(run[i], run[j], op)
  {
    hide StepBy, Inv, Kept;
    HistoryGrows(c, run, steps, i, m);
    WriteHistory(c, run[m], run[m + 1], steps[m].b);
    DurableStays(c, run, steps, m + 1, j);
    var w, v, d := run[i].log.g.writes, run[j].log.g.writes, run[m + 1].log.durable;
    forall k | 0 <= k < |w|
      ensures k < run[j].log.durable && k < |v| && v[k] == w[k]
    {
      assert v[..d][k] == run[m + 1].log.g.writes[..d][k];
    }
  }

  /**
   Exactly which operations a crash spares. An operation that ended at step i is
   durable at state j if and only if it logged nothing, or a commit point lies
   between the two with no crash before it.
   */
  lemma DurabilityExact(c: Config, run: seq<State>, steps: seq<Step>, i: nat, j: nat, p: nat)
    requires IsRun(c, run, steps) && i < j < |run| && Kept(c, run, steps, j) && steps[i] == EndOp(p)
    ensures p < |run[i].log.g.ctl| && run[i].log.g.ctl[p].Op?
    ensures var op := run[i].log.g.ctl[p].id;
            Survives(run[i], run[j], op) <==> !Wrote(run[i], op) || CommittedBetween(run, steps, i, j)
  {
    hide Inv, Kept;
    EndsAnOp(c, run[i], run[i + 1], p);
    hide StepBy;
    var s, t, op := run[i], run[j], run[i].log.g.ctl[p].id;
    if CommittedBetween(run, steps, i, j) {
      var m :| i < m < j && m < |run| && m < |steps| && IsCommitPoint(run[m], steps[m]) && NoCrash(steps, i, m);
      CommitSaves(c, run, steps, i, m, j, op);
    } else if Wrote(s, op) {
      KeptBefore(c, run, steps, i, j);
      RunInv(c, run, steps, i);
      OpenOrLost(c, run, steps, i, j, p);
      NothingDurable(c, s, p);
      var k :| 0 <= k < |s.log.g.writes| && s.log.g.writes[k].op == op;
      assert !(k < t.log.durable && k < |t.log.g.writes| && t.log.g.writes[k] == s.log.g.writes[k]);
    }
  }

  lemma EndsAnOp(c: Config, s: State, s': State, p: nat)
    requires StepBy(c, s, s', EndOp(p))
    ensures p < |s.log.g.ctl| && s.log.g.ctl[p].Op?
  {
  }

  lemma KeptBefore(c: Config, run: seq<State>, steps: seq<Step>, i: nat, j: nat)
    requires Kept(c, run, steps, j) && i <= j
    ensures Kept(c, run, steps, i)
  {
  }

  /**
   What end_op's return means. One that finds other operations in progress
   returns at once, and has nothing durable but if it logged nothing; the last one
   returns from its commit, and all it logged is durable.
   */
  lemma DurableAtReturn(c: Config, run: seq<State>, steps: seq<Step>, i: nat, j: nat, p: nat)
    requires IsRun(c, run, steps) && i < j < |run| && Kept(c, run, steps, j) && steps[i] == EndOp(p)
    requires if run[i + 1].log.g.committing then NoCrash(steps, i, j) && run[j].log.job == Finish else j == i + 1
    ensures p < |run[i].log.g.ctl| && run[i].log.g.ctl[p].Op?
    ensures var op := run[i].log.g.ctl[p].id;
            Survives(run[i], run[j], op) <==> !Wrote(run[i], op) || run[i].log.g.outstanding == 1
  {
    hide Inv, Kept;
    EndsAnOp(c, run[i], run[i + 1], p);
    LastCommits(c, run[i], run[i + 1], p);
    hide StepBy;
    if run[i + 1].log.g.committing {
      HistoryGrows(c, run, steps, i, j);
      Durability(c, run, steps, j, j);
    } else {
      DurabilityExact(c, run, steps, i, j, p);
    }
  }

  lemma LastCommits(c: Config, s: State, s': State, p: nat)
    requires StepBy(c, s, s', EndOp(p))
    ensures s'.log.g.committing <==> s.log.g.outstanding == 1
  {
  }

  /** bread of a home block returns the latest contents any log_write gave it. */
  lemma ReadersSeeLatest(c: Config, run: seq<State>, steps: seq<Step>, i: nat, p: nat, b: nat, x: nat)
    requires IsRun(c, run, steps) && i < |run| && Kept(c, run, steps, i)
    requires B.Has(run[i].bio, p, b, x) && Home(c, x) && b !in run[i].bio.touched && !run[i].log.booting
    ensures x < |run[i].log.base| && run[i].bio.cache.bufs[b].data == Latest(run[i].log)[x]
  {
    hide StepBy;
    RunInv(c, run, steps, i);
    B.BreadReturnsLatest(run[i].bio, p, b, x);
    B.LookIs(run[i].bio.cache.bufs, x, b);
  }

  /**
   The shared cache, over every run: a buffer's count is the number of processes
   waiting for it, holding it or releasing it, one process holds it at most, a block
   has one buffer at most, and a valid clean buffer nobody holds equals its disk block.
   */
  lemma SharedBuffers(c: Config, run: seq<State>, steps: seq<Step>, i: nat)
    requires IsRun(c, run, steps) && i < |run|
    ensures var m := run[i].bio;
            && B.Unique(m.cache.bufs) && |m.holder| == |m.cache.bufs|
            && (forall b :: 0 <= b < |m.cache.bufs| ==> m.cache.bufs[b].refcnt == |B.RefsTo(m.refs, b)|)
            && (forall b: nat, p: nat, q: nat :: B.Ref(p, b, B.Holding) in m.refs && B.Ref(q, b, B.Holding) in m.refs ==> p == q)
            && (forall b :: 0 <= b < |m.cache.bufs| && m.holder[b] == None
                            && m.cache.bufs[b].valid && !m.cache.bufs[b].dirty && m.cache.bufs[b].block.Some?
                            ==> m.cache.bufs[b].block.value < |m.disk| && m.cache.bufs[b].data == m.disk[m.cache.bufs[b].block.value])
  {
    hide StepBy, LogInv;
    RunBio(c, run, steps, i);
    var m := run[i].bio;
    forall b: nat, p: nat, q: nat | B.Ref(p, b, B.Holding) in m.refs && B.Ref(q, b, B.Holding) in m.refs
      ensures p == q
    {
      assert m.holder[b] == Some(p) && m.holder[b] == Some(q);
    }
  }

  /** The step of the cache in a step of the system that is not a crash. */
  function BioStep(c: Config, s: State, a: Step): B.Step {
    match a
    case Client(bs) => bs
    case Inside(bs) => bs
    case LogWrite(p, b, x) => B.PinStep(p, b, x)
    case Ask(b) => if Wanted(c, s.log).Some? then B.GetStep(s.log.worker, Wanted(c, s.log).value, b) else B.NoStep
    case CopyBlock(src, dst) =>
      if src < |s.bio.cache.bufs| && dst < |s.bio.cache.bufs| && s.bio.cache.bufs[dst].block.Some?
      then B.ModifyStep(s.log.worker, dst, s.bio.cache.bufs[dst].block.value, s.bio.cache.bufs[src].data) else B.NoStep
    case UseHeader(b) =>
      if s.log.job != ReadHead(UseHead) && b < |s.bio.cache.bufs| && |s.log.g.lh| < WORDS
      then B.ModifyStep(s.log.worker, b, c.start, PutHead(s.bio.cache.bufs[b].data, s.log.g.lh)) else B.NoStep
    case WriteBlock(b) => if JobOpen(c, s.log).Some? then B.BwriteStep(s.log.worker, b, JobOpen(c, s.log).value) else B.NoStep
    case Give(b) => B.UnlockStep(s.log.worker, b)
    case _ => B.NoStep
  }

  lemma BioStepIs(c: Config, s: State, s': State, a: Step)
    requires StepBy(c, s, s', a) && a != Crash
    ensures B.StepBy(s.bio, s'.bio, BioStep(c, s, a))
  {
  }

  /** The cache is sound in every run, whatever the log does. */
  lemma {:induction false} RunBio(c: Config, run: seq<State>, steps: seq<Step>, i: nat)
    requires IsRun(c, run, steps) && i < |run|
    ensures B.Inv(run[i].bio)
  {
    hide StepBy, Boot, B.Inv, B.Init, B.StepBy, BioStep;
    if i == 0 {
      var d: Disk :| WfDisk(c, d) && run[0] == Boot(c, d);
      FreshCache(c, d);
      BootBio(c, d);
    } else {
      RunBio(c, run, steps, i - 1);
      if steps[i - 1] == Crash {
        CrashBio(c, run[i - 1], run[i]);
        FreshCache(c, run[i - 1].bio.disk);
      } else {
        BioStepIs(c, run[i - 1], run[i], steps[i - 1]);
        B.StepInv(run[i - 1].bio, run[i].bio, BioStep(c, run[i - 1], steps[i - 1]));
      }
    }
  }

  lemma BootBio(c: Config, d: Disk)
    requires WfDisk(c, d)
    ensures Boot(c, d).bio == B.Init(d, c.nbuf)
  {
  }

  lemma CrashBio(c: Config, s: State, s': State)
    requires StepBy(c, s, s', Crash)
    ensures s'.bio == B.Init(s.bio.disk, c.nbuf)
  {
  }

  /** While a process waits for a buffer, holds it or releases it, the buffer stays that of the same block. */
  lemma BuffersKeepIdentity(c: Config, run: seq<State>, steps: seq<Step>, i: nat, r: B.Ref)
    requires IsRun(c, run, steps) && i < |steps| && steps[i] != Crash && r in run[i].bio.refs
    ensures r.buf < |run[i].bio.cache.bufs| == |run[i + 1].bio.cache.bufs|
    ensures run[i + 1].bio.cache.bufs[r.buf].block == run[i].bio.cache.bufs[r.buf].block
  {
    hide StepBy, LogInv, B.StepBy, B.Inv, BioStep;
    RunBio(c, run, steps, i);
    BioStepIs(c, run[i], run[i + 1], steps[i]);
    B.IdentityIsStable(run[i].bio, run[i + 1].bio, BioStep(c, run[i], steps[i]), r);
  }

  /**
   When buffer b was last left without references, told from the reference counts of the
   run alone. Before that, and after a crash, buffers count as released in binit's order.
   */
  function LastFree(c: Config, run: seq<State>, steps: seq<Step>, i: nat, b: nat): int
    requires i < |run| == |steps| + 1
  {
    if i == 0 || steps[i - 1] == Crash then b - c.nbuf
    else if B.Frees(run[i - 1].bio, run[i].bio, b) then i
    else LastFree(c, run, steps, i - 1, b)
  }

  lemma {:induction false} LastFreeAtMost(c: Config, run: seq<State>, steps: seq<Step>, i: nat, b: nat)
    requires i < |run| == |steps| + 1 && b < c.nbuf
    ensures LastFree(c, run, steps, i, b) <= i
  {
    if !(i == 0 || steps[i - 1] == Crash || B.Frees(run[i - 1].bio, run[i].bio, b)) {
      LastFreeAtMost(c, run, steps, i - 1, b);
    }
  }

  lemma {:induction false} RunBuffers(c: Config, run: seq<State>, steps: seq<Step>, i: nat)
    requires IsRun(c, run, steps) && i < |run|
    ensures |run[i].bio.cache.bufs| == |run[i].bio.stamp| == c.nbuf
  {
    hide StepBy, Boot, B.Inv, B.StepBy, BioStep, B.Frees;
    if i == 0 {
      var d: Disk :| WfDisk(c, d) && run[0] == Boot(c, d);
      BootBio(c, d);
    } else if steps[i - 1] == Crash {
      CrashBio(c, run[i - 1], run[i]);
    } else {
      RunBuffers(c, run, steps, i - 1);
      RunBio(c, run, steps, i - 1);
      BioStepIs(c, run[i - 1], run[i], steps[i - 1]);
      B.StampsTell(run[i - 1].bio, run[i].bio, BioStep(c, run[i - 1], steps[i - 1]));
    }
  }

  /** The stamps of the cache are in the order in which its buffers were released. */
  lemma {:induction false} StampsAreReleases(c: Config, run: seq<State>, steps: seq<Step>, i: nat, a: nat, b: nat)
    requires IsRun(c, run, steps) && i < |run| && a < c.nbuf && b < c.nbuf
    ensures |run[i].bio.cache.bufs| == |run[i].bio.stamp| == c.nbuf
    ensures run[i].bio.stamp[a] < run[i].bio.stamp[b] <==> LastFree(c, run, steps, i, a) < LastFree(c, run, steps, i, b)
  {
    hide StepBy, Boot, B.Inv, B.StepBy, BioStep, B.Frees;
    RunBuffers(c, run, steps, i);
    if i == 0 {
      var d: Disk :| WfDisk(c, d) && run[0] == Boot(c, d);
      BootBio(c, d);
    } else if steps[i - 1] == Crash {
      CrashBio(c, run[i - 1], run[i]);
    } else {
      var m, m' := run[i - 1].bio, run[i].bio;
      RunBio(c, run, steps, i - 1);
      BioStepIs(c, run[i - 1], run[i], steps[i - 1]);
      B.StampsTell(m, m', BioStep(c, run[i - 1], steps[i - 1]));
      StampsAreReleases(c, run, steps, i - 1, a, b);
      LastFreeAtMost(c, run, steps, i - 1, a);
      LastFreeAtMost(c, run, steps, i - 1, b);
    }
  }

  /** bget, in every run, takes over the unreferenced clean buffer that was released longest ago. */
  lemma LeastRecentIsRecycled(c: Config, run: seq<State>, steps: seq<Step>, i: nat, p: nat, x: nat, b: nat)
    requires IsRun(c, run, steps) && i < |steps| && steps[i] != Crash
    requires BioStep(c, run[i], steps[i]) == B.GetStep(p, x, b) && !C.Cached(run[i].bio.cache.bufs, x)
    ensures |run[i].bio.cache.bufs| == c.nbuf && C.Eligible(run[i].bio.cache.bufs, b)
    ensures forall a :: 0 <= a < c.nbuf && C.Eligible(run[i].bio.cache.bufs, a) ==>
                          LastFree(c, run, steps, i, b) <= LastFree(c, run, steps, i, a)
  {
    hide StepBy, Boot, BioStep, B.Inv, LastFree;
    RunBio(c, run, steps, i);
    BioStepIs(c, run[i], run[i + 1], steps[i]);
    B.RecyclesLeastRecent(run[i].bio, run[i + 1].bio, p, x, b);
    RunBuffers(c, run, steps, i);
    forall a | 0 <= a < c.nbuf && C.Eligible(run[i].bio.cache.bufs, a)
      ensures LastFree(c, run, steps, i, b) <= LastFree(c, run, steps, i, a)
    {
      StampsAreReleases(c, run, steps, i, a, b);
    }
  }

  /**
   A logged block stays in its buffer, dirty and with the latest contents, until
   install_trans has written it home; what write_log copies is what was logged.
   */
  lemma LoggedBlocksStayCached(c: Config, run: seq<State>, steps: seq<Step>, i: nat, k: nat)
    requires IsRun(c, run, steps) && i < |run| && Kept(c, run, steps, i) && k < |run[i].log.g.lh| && !run[i].log.booting
    requires run[i].log.job.Installing? ==> k >= Rounds(run[i].log.job.t, run[i].log.job.pc)
    ensures exists b :: InBuffer(run[i], b, run[i].log.g.lh[k])
  {
    hide StepBy, LogInv, B.Inv, B.Abs, InBuffer;
    RunInv(c, run, steps, i);
    LoggedIsPinned(c, B.Abs(run[i].bio), run[i].log, k);
    PinnedIsLatest(c, run[i], run[i].log.g.lh[k]);
  }

  /** Buffer b holds block x, to be kept; nobody but an operation at work on it has other contents in it. */
  ghost predicate InBuffer(s: State, b: nat, x: nat) {
    && b < |s.bio.cache.bufs| && x < |s.log.base|
    && var f := s.bio.cache.bufs[b];
    && f.block == Some(x) && f.dirty && f.valid
    && (b !in s.bio.touched ==> f.data == Latest(s.log)[x])
    && (s.log.job.WriteLog? ==> b !in s.bio.touched)
  }

  lemma PinnedIsLatest(c: Config, s: State, x: nat)
    requires Inv(c, s) && x in B.Abs(s.bio).pinned && Home(c, x) && !s.log.booting
    ensures exists b :: InBuffer(s, b, x)
  {
    hide B.Inv, LogInv, B.Abs, Latest;
    PinnedIsDirty(s.bio, x);
    LatestIsRead(c, B.Abs(s.bio), s.log, x);
    var b :| 0 <= b < |s.bio.cache.bufs| && s.bio.cache.bufs[b].block == Some(x) && s.bio.cache.bufs[b].dirty && s.bio.cache.bufs[b].valid;
    BufferIs(s.bio, x, b);
    assert InBuffer(s, b, x);
  }

  lemma BufferIs(m: B.Bio, x: nat, b: nat)
    requires B.Inv(m) && b < |m.cache.bufs| && m.cache.bufs[b].block == Some(x) && m.cache.bufs[b].valid
    ensures x < |m.disk| && x < |B.Abs(m).val| && m.cache.bufs[b].data == B.Abs(m).val[x]
    ensures b in m.touched <==> x in B.Abs(m).open
  {
    B.LookIs(m.cache.bufs, x, b);
  }

  lemma LatestIsRead(c: Config, st: S.Store, l: Log, x: nat)
    requires LogInv(c, st, l) && Home(c, x) && !l.booting
    ensures x < |l.base| && x < |st.val| && (x !in st.open ==> st.val[x] == Latest(l)[x])
    ensures l.job.WriteLog? ==> x !in st.open
  {
    if l.job.WriteLog? {
      JobIsAlone(c, st, l);
      assert l.job.pc == CrashLog.Store ==> InLog(c, Slot(c, l.job.t));
    }
  }

  lemma LoggedIsPinned(c: Config, st: S.Store, l: Log, k: nat)
    requires LogInv(c, st, l) && k < |l.g.lh| && !l.booting
    requires l.job.Installing? ==> k >= Rounds(l.job.t, l.job.pc)
    ensures l.g.lh[k] in st.pinned && Home(c, l.g.lh[k])
  {
    hide Durable, G.Inv, ReadInv, WholeInv, OpenInv, WfDisk, Replay, S.StoreInv, LogHolds, HomeHolds, IsHead;
    if l.job.Installing? {
      var r := Rounds(l.job.t, l.job.pc);
      assert l.g.lh[r..][k - r] == l.g.lh[k];
    }
  }

  lemma PinnedIsDirty(m: B.Bio, x: nat)
    requires B.Inv(m) && x in B.Abs(m).pinned
    ensures exists b :: 0 <= b < |m.cache.bufs| && m.cache.bufs[b].block == Some(x) && m.cache.bufs[b].dirty && m.cache.bufs[b].valid
  {
    var b := B.Look(m.cache.bufs, x).value;
    assert m.cache.bufs[b].dirty;
  }

  /**
   end_op's panic is unreachable, and so is log_write's second; its first spares an
   operation with budget left when LOGSIZE <= log.size - 1 (GroupCommit.GuardExact has the rest).
   */
  lemma NoPanic(c: Config, run: seq<State>, steps: seq<Step>, i: nat, p: nat)
    requires IsRun(c, run, steps) && i < |run|
    requires p < |run[i].log.g.ctl| && run[i].log.g.ctl[p].Op?
    ensures !run[i].log.g.committing && run[i].log.g.outstanding >= 1
    ensures |run[i].log.g.ctl[p].used| < c.maxop && c.logsize <= c.size - 1 ==> !G.TooBig(c, run[i].log.g)
  {
    hide IsRun;
    RunRecord(c, run, steps, i);
    var g := run[i].log.g;
    G.OpIsCounted(g.ctl, p);
    G.SlackAtMostUnused(c, g.ctl, p);
  }

  /** In every run a process asleep in begin_op waits for a commit to end or for room that is not there. */
  lemma SleepersHaveReason(c: Config, run: seq<State>, steps: seq<Step>, i: nat, p: nat)
    requires IsRun(c, run, steps) && i < |run| && p in run[i].log.g.asleep
    ensures var g := run[i].log.g; g.committing || |g.lh| + (g.outstanding + 1) * c.maxop > c.logsize
  {
    hide IsRun;
    RunRecord(c, run, steps, i);
  }

  /** Outside a commit and a recovery the log on disk is empty and every home block is as committed. */
  lemma QuietDisk(c: Config, run: seq<State>, steps: seq<Step>, i: nat)
    requires IsRun(c, run, steps) && i < |run| && Kept(c, run, steps, i) && run[i].log.job == NoJob
    ensures WfDisk(c, run[i].bio.disk) && Header(c, run[i].bio.disk) == []
    ensures |run[i].log.base| == |run[i].bio.disk|
    ensures forall x :: Home(c, x) ==> run[i].bio.disk[x] == Committed(run[i].log)[x]
  {
    hide StepBy;
    RunInv(c, run, steps, i);
  }

  /** From a crash to the end of recovery, however often it crashes on the way, nothing committed changes. */
  lemma {:induction false} RecoveryKeeps(c: Config, run: seq<State>, steps: seq<Step>, i: nat, j: nat)
    requires IsRun(c, run, steps) && i < j < |run| && Kept(c, run, steps, j) && steps[i] == Crash
    requires forall k :: i < k < j ==> run[k].log.booting
    ensures Committed(run[j].log) == Committed(run[i].log)
  {
    hide Inv, StepBy, Committed;
    RunInv(c, run, steps, j - 1);
    CommittedChangesAtOnce(c, run[j - 1], run[j], steps[j - 1]);
    if i < j - 1 {
      NoCommitWhileBooting(c, run[j - 1]);
      RecoveryKeeps(c, run, steps, i, j - 1);
    }
  }

  lemma NoCommitWhileBooting(c: Config, s: State)
    requires Inv(c, s) && s.log.booting
    ensures !s.log.job.Commit?
  {
  }

  /**
   Recovery is idempotent. After any crash, and any number of further crashes
   inside recovery, the recovery that completes leaves on disk what one
   uninterrupted recover_from_log of the first crashed disk would have left.
   */
  lemma RecoveryIsIdempotent(c: Config, run: seq<State>, steps: seq<Step>, i: nat, j: nat)
    requires IsRun(c, run, steps) && i < j < |run| && Kept(c, run, steps, j) && steps[i] == Crash
    requires (forall k :: i < k < j ==> run[k].log.booting) && run[j].log.job == NoJob
    ensures WfDisk(c, run[i].bio.disk) && WfDisk(c, run[j].bio.disk) && Header(c, run[j].bio.disk) == []
    ensures forall x :: Home(c, x) ==> run[j].bio.disk[x] == Recover(c, run[i].bio.disk)[x]
  {
    hide Inv, StepBy, Committed, Recover;
    CrashSafety(c, run, steps, i);
    QuietDisk(c, run, steps, j);
    RecoveryKeeps(c, run, steps, i, j);
  }
}
