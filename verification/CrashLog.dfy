/**
 What commit() and recover_from_log() keep true of the block store while they
 run, one disk write or buffer operation at a time. `Log` adds to the shared log
 record where the running commit or recovery stands, and the history that says
 what a crash must preserve.
 */
module CrashLog {
  import opened Options
  import opened Sequences
  import opened Params
  import opened Blocks
  import opened LogDisk
  import G = GroupCommit
  import S = BlockStore

  /** One round of write_log or install_trans: which call comes next. */
  datatype PairPc = GetLog | GetHome | Copy | Store | Release1 | Release2 | Again

  /** One call of write_head or read_head. */
  datatype HeadPc = GetHead | UseHead | StoreHead | ReleaseHead | HeadDone

  datatype Job =
    | NoJob
    | ReadHead(hpc: HeadPc)             // recovery only
    | WriteLog(t: nat, pc: PairPc)      // commit only
    | Commit(hpc: HeadPc)               // write_head: the commit point
    | Installing(t: nat, pc: PairPc)
    | Clear(hpc: HeadPc)                // write_head with n = 0
    | Finish                            // commit has returned, `committing` still set

  datatype Log = Log(
    g: G.State,
    job: Job,
    worker: nat,     // the process in commit() or recover_from_log()
    booting: bool,   // recovery has not finished
    base: Disk,      // history: the home blocks at the very start
    durable: nat)    // history: how many of g.writes are committed

  /** The contents after the first n of the writes. */
  function Replay(base: Disk, ws: seq<G.Write>): (d: Disk)
    ensures |d| == |base|
  {
    if ws == [] then base else
    var w := ws[|ws| - 1];
    var d := Replay(base, ws[..|ws| - 1]);
    if w.block < |d| then d[w.block := w.data] else d
  }

  lemma ReplayAppend(base: Disk, ws: seq<G.Write>, w: G.Write)
    requires w.block < |base|
    ensures Replay(base, ws + [w]) == Replay(base, ws)[w.block := w.data]
  {
    assert (ws + [w])[..|ws|] == ws;
  }

  /** The latest contents, and the committed ones. */
  function Latest(l: Log): Disk {
    Replay(l.base, l.g.writes)
  }

  function Committed(l: Log): Disk {
    if l.durable <= |l.g.writes| then Replay(l.base, l.g.writes[..l.durable]) else l.base
  }

  /** Rounds whose bwrite is done. */
  function Rounds(t: nat, pc: PairPc): nat {
    if pc in {Release1, Release2, Again} then t + 1 else t
  }

  function HeadWritten(hpc: HeadPc): bool {
    hpc in {ReleaseHead, HeadDone}
  }

  /** The block the worker has changed and not yet written. */
  function JobOpen(c: Config, l: Log): Option<nat> {
    match l.job
    case WriteLog(t, Store) => Some(Slot(c, t))
    case Installing(t, Store) => if t < |l.g.lh| then Some(l.g.lh[t]) else None
    case Commit(StoreHead) => Some(c.start)
    case Clear(StoreHead) => Some(c.start)
    case _ => None
  }

  predicate AllHome(c: Config, lh: seq<nat>) {
    forall i :: 0 <= i < |lh| ==> Home(c, lh[i])
  }

  ghost predicate Shape(c: Config, st: S.Store, l: Log) {
    && S.StoreInv(st) && G.Inv(c, l.g)
    && WfDisk(c, st.disk) && |l.base| == |st.disk|
    && (forall i :: 0 <= i < |l.g.writes| ==> Home(c, l.g.writes[i].block))
    && AllHome(c, l.g.lh)
    && l.durable <= |l.g.writes|
  }

  /** The log blocks hold the contents v of the first n logged blocks. */
  ghost predicate LogHolds(c: Config, d: Disk, lh: seq<nat>, n: nat, v: Disk)
    requires WfConfig(c) && |d| == |v| == c.disksize && n <= |lh| && n <= c.size - 1
    requires AllHome(c, lh)
  {
    forall i :: 0 <= i < n ==> d[Slot(c, i)] == v[lh[i]]
  }

  /** The first n logged blocks have their contents v at home. */
  ghost predicate HomeHolds(c: Config, d: Disk, lh: seq<nat>, n: nat, v: Disk)
    requires |d| == |v| == c.disksize && n <= |lh|
    requires AllHome(c, lh)
  {
    forall i :: 0 <= i < n ==> d[lh[i]] == v[lh[i]]
  }

  ghost predicate AllInstalled(c: Config, d: Disk, v: Disk)
    requires |d| == |v| == c.disksize
  {
    forall x :: Home(c, x) ==> d[x] == v[x]
  }

  /** What holds at each point of the job. */
  ghost predicate JobInv(c: Config, st: S.Store, l: Log)
    requires Shape(c, st, l)
  {
    var v := Latest(l);
    var lh := l.g.lh;
    var h := Header(c, st.disk);
    match l.job
    case NoJob => !l.booting && h == [] && st.pinned == SetOf(lh)
    case Finish => !l.booting && h == [] && st.pinned == {} && lh == [] && l.durable == |l.g.writes|
    case WriteLog(t, pc) =>
      && !l.booting && h == [] && st.pinned == SetOf(lh) && t < |lh|
      && (l.job == WriteLog(0, GetLog) || |lh| <= c.size - 1)
      && LogHolds(c, st.disk, lh, Rounds(t, pc), v)
      && (pc == Store ==> st.val[Slot(c, t)] == v[lh[t]])
    case Commit(hpc) =>
      && !l.booting && st.pinned == SetOf(lh) && 1 <= |lh| <= c.size - 1
      && LogHolds(c, st.disk, lh, |lh|, v)
      && (hpc == StoreHead ==> IsHead(st.val[c.start], lh))
      && (if HeadWritten(hpc) then h == lh && l.durable == |l.g.writes| else h == [])
    case Installing(t, pc) =>
      && h == lh && l.durable == |l.g.writes| && t < |lh|
      && LogHolds(c, st.disk, lh, |lh|, v)
      && HomeHolds(c, st.disk, lh, Rounds(t, pc), v)
      && (pc == Store ==> st.val[lh[t]] == v[lh[t]])
      && st.pinned == if l.booting then {} else SetOf(lh[Rounds(t, pc)..])
    case Clear(hpc) =>
      && lh == [] && l.durable == |l.g.writes| && st.pinned == {}
      && AllInstalled(c, st.disk, v)
      && (hpc == StoreHead ==> IsHead(st.val[c.start], []))
      && (HeadWritten(hpc) ==> h == [])
    case ReadHead(hpc) =>
      && l.booting && l.durable == |l.g.writes| && st.pinned == {}
      && lh == if HeadWritten(hpc) then h else []
  }

  /** A reader sees the latest contents, unless recovery is still under way. */
  ghost predicate ReadInv(c: Config, st: S.Store, l: Log)
    requires Shape(c, st, l)
  {
    !l.booting ==> forall x :: Home(c, x) && x !in st.open ==> st.val[x] == Latest(l)[x]
  }

  /** Only an operation or the job changes blocks. */
  ghost predicate OpenInv(c: Config, st: S.Store, l: Log) {
    forall x :: x in st.open ==>
                  || JobOpen(c, l) == Some(x)
                  || (x in st.locked && st.locked[x] < |l.g.ctl| && l.g.ctl[st.locked[x]].Op? && Home(c, x))
  }

  ghost predicate WorkerInv(l: Log) {
    && (l.g.committing <==> !l.booting && l.job != NoJob)
    && (l.g.committing ==> l.worker < |l.g.ctl| && l.g.ctl[l.worker].Committing?)
    && (l.booting ==> l.job != NoJob && l.g.asleep == {} && forall p :: 0 <= p < |l.g.ctl| ==> l.g.ctl[p].Idle?)
  }

  /** Operations are committed as a whole, and what is not yet committed is in the log. */
  ghost predicate WholeInv(g: G.State, durable: nat) {
    && durable <= |g.writes|
    && (forall i, j :: 0 <= i < durable <= j < |g.writes| ==> g.writes[i].op != g.writes[j].op)
    && (forall i, p :: 0 <= i < durable && 0 <= p < |g.ctl| && g.ctl[p].Op? ==> g.writes[i].op != g.ctl[p].id)
    && (forall i :: durable <= i < |g.writes| ==> g.writes[i].block in g.lh)
  }

  ghost predicate LogInv(c: Config, st: S.Store, l: Log) {
    && Shape(c, st, l)
    && Durable(c, st.disk, Committed(l))
    && ReadInv(c, st, l)
    && OpenInv(c, st, l)
    && WorkerInv(l)
    && JobInv(c, st, l)
    && WholeInv(l.g, l.durable)
  }

  // ---- steps that do not touch the log record ----

  /** A process waits for, gets or gives up a block. */
  lemma KeepLock(c: Config, st: S.Store, st': S.Store, l: Log, a: S.Act)
    requires LogInv(c, st, l) && S.StoreStep(st, st', a) && S.StoreInv(st')
    requires a.Quiet? || a.Lock? || a.Unlock?
    ensures LogInv(c, st', l)
  {
  }

  /** An operation is in progress: nothing commits. */
  lemma OpMeansNoJob(c: Config, st: S.Store, l: Log, p: nat)
    requires LogInv(c, st, l) && p < |l.g.ctl| && l.g.ctl[p].Op?
    ensures !l.booting && l.job == NoJob && !l.g.committing
  {
    G.OpIsCounted(l.g.ctl, p);
  }

  /** An operation changes a home block it holds. */
  lemma KeepChange(c: Config, st: S.Store, st': S.Store, l: Log, p: nat, x: nat, data: Block)
    requires LogInv(c, st, l) && S.StoreStep(st, st', S.Change(p, x, data)) && S.StoreInv(st')
    requires p < |l.g.ctl| && l.g.ctl[p].Op? && Home(c, x)
    ensures LogInv(c, st', l)
  {
    OpMeansNoJob(c, st, l, p);
  }

  // ---- operations ----

  lemma KeepBegin(c: Config, st: S.Store, l: Log, g': G.State, p: nat)
    requires LogInv(c, st, l) && G.Begin(c, l.g, g', p) && !l.booting
    ensures LogInv(c, st, l.(g := g'))
  {
    G.BeginInv(c, l.g, g', p);
    forall i | 0 <= i < l.durable
      ensures l.g.writes[i].op != l.g.nextId
    {
      assert l.g.writes[i] in l.g.writes;
    }
  }

  lemma SleepJob(c: Config, st: S.Store, l: Log, asleep: set<nat>)
    requires var l' := l.(g := l.g.(asleep := asleep));
             Shape(c, st, l) && JobInv(c, st, l) && ReadInv(c, st, l) && Shape(c, st, l')
    ensures var l' := l.(g := l.g.(asleep := asleep)); JobInv(c, st, l') && ReadInv(c, st, l')
  {
    hide G.Inv, S.StoreInv, Replay, LogHolds, HomeHolds, AllInstalled, IsHead, WfHead;
  }

  lemma KeepSleep(c: Config, st: S.Store, l: Log, g': G.State, p: nat)
    requires LogInv(c, st, l) && G.Sleep(c, l.g, g', p) && !l.booting
    ensures LogInv(c, st, l.(g := g'))
  {
    hide G.Inv, Durable, Replay, S.StoreInv, WfDisk, AllHome, JobInv, ReadInv, G.CanBegin;
    G.SleepInv(c, l.g, g', p);
    SleepJob(c, st, l, g'.asleep);
  }

  lemma KeepCheck(c: Config, st: S.Store, l: Log, g': G.State, p: nat, x: nat)
    requires LogInv(c, st, l) && G.Check(c, l.g, g', p, x)
    ensures LogInv(c, st, l.(g := g'))
  {
    hide G.Inv, Durable, Replay, S.StoreInv, WfDisk, AllHome, IsHead, WfHead;
    OpMeansNoJob(c, st, l, p);
    G.CheckInv(c, l.g, g', p, x);
  }

  lemma AppendWhole(c: Config, g: G.State, g': G.State, durable: nat, p: nat, x: nat, data: Block)
    requires WholeInv(g, durable) && G.Append(c, g, g', p, x, data)
    ensures WholeInv(g', durable)
  {
    var n := |g.writes|;
    assert forall i :: 0 <= i < n ==> g'.writes[i] == g.writes[i];
    assert g'.writes[n].op == g.ctl[p].id;
  }

  lemma AppendShape(c: Config, st: S.Store, st': S.Store, l: Log, g': G.State, p: nat, x: nat)
    requires Shape(c, st, l) && Home(c, x)
    requires S.StoreStep(st, st', S.Pin(p, x)) && S.StoreInv(st')
    requires G.Append(c, l.g, g', p, x, st.val[x])
    ensures Shape(c, st', l.(g := g'))
    ensures Committed(l.(g := g')) == Committed(l)
    ensures Latest(l.(g := g')) == Latest(l)[x := st.val[x]]
  {
    G.AppendInv(c, l.g, g', p, x, st.val[x]);
    ReplayAppend(l.base, l.g.writes, G.Write(l.g.ctl[p].id, x, st.val[x], l.g.txn));
    assert g'.writes[..l.durable] == l.g.writes[..l.durable];
  }

  /** log_write: the block is pinned, and what its buffer holds becomes the latest contents. */
  lemma KeepAppend(c: Config, st: S.Store, st': S.Store, l: Log, g': G.State, p: nat, x: nat)
    requires LogInv(c, st, l) && Home(c, x)
    requires S.StoreStep(st, st', S.Pin(p, x)) && S.StoreInv(st')
    requires G.Append(c, l.g, g', p, x, st.val[x])
    ensures LogInv(c, st', l.(g := g'))
  {
    hide G.Inv, WholeInv, IsHead, Replay;
    AppendShape(c, st, st', l, g', p, x);
    AppendWhole(c, l.g, g', l.durable, p, x, st.val[x]);
    OpMeansNoJob(c, st, l, p);
    assert SetOf(g'.lh) == SetOf(l.g.lh) + {x};
  }

  /** commit() does nothing when no block is logged. */
  function StartJob(g: G.State): Job {
    if !g.committing then NoJob else if g.lh == [] then Finish else WriteLog(0, GetLog)
  }

  /** end_op; the last operation out starts the commit. */
  lemma KeepEnd(c: Config, st: S.Store, l: Log, g': G.State, p: nat)
    requires LogInv(c, st, l) && G.End(c, l.g, g', p)
    requires forall x :: x in st.locked ==> st.locked[x] != p
    ensures LogInv(c, st, l.(g := g', worker := if g'.committing then p else l.worker, job := StartJob(g')))
  {
    hide Durable, WfDisk, AllHome, Replay, S.StoreInv, G.Inv, WholeInv, OpenInv;
    G.EndInv(c, l.g, g', p);
    OpMeansNoJob(c, st, l, p);
    EndWhole(c, l.g, g', l.durable, p);
    if l.durable < |g'.writes| {
      LoggedIsThere(g', l.durable);
    }
    var l' := l.(g := g', worker := if g'.committing then p else l.worker, job := StartJob(g'));
    EndOpen(c, st, l, l', p);
  }

  lemma LoggedIsThere(g: G.State, durable: nat)
    requires WholeInv(g, durable) && durable < |g.writes|
    ensures g.lh != []
  {
    assert g.writes[durable].block in g.lh;
  }

  lemma EndOpen(c: Config, st: S.Store, l: Log, l': Log, p: nat)
    requires OpenInv(c, st, l) && l.job == NoJob && G.End(c, l.g, l'.g, p) && forall x :: x in st.locked ==> st.locked[x] != p
    ensures OpenInv(c, st, l')
  {
  }

  lemma EndWhole(c: Config, g: G.State, g': G.State, durable: nat, p: nat)
    requires WholeInv(g, durable) && G.End(c, g, g', p)
    ensures WholeInv(g', durable)
  {
  }

  // ---- the job ----

  /** While a job runs no operation has a block open. */
  lemma JobIsAlone(c: Config, st: S.Store, l: Log)
    requires LogInv(c, st, l) && l.job != NoJob
    ensures forall p :: 0 <= p < |l.g.ctl| ==> !l.g.ctl[p].Op?
    ensures forall x :: x in st.open ==> JobOpen(c, l) == Some(x)
  {
    forall p | 0 <= p < |l.g.ctl|
      ensures !l.g.ctl[p].Op?
    {
      if l.g.ctl[p].Op? { OpMeansNoJob(c, st, l, p); }
    }
  }

  /** Moves within a round that read or write nothing: a buffer is asked for or given up. */
  function NextPair(pc: PairPc): Option<PairPc> {
    match pc
    case GetLog => Some(GetHome)
    case GetHome => Some(Copy)
    case Release1 => Some(Release2)
    case Release2 => Some(Again)
    case _ => None
  }

  function NextHead(hpc: HeadPc): Option<HeadPc> {
    match hpc
    case GetHead => Some(UseHead)
    case ReleaseHead => Some(HeadDone)
    case _ => None
  }

  function Advanced(j: Job): Option<Job> {
    if j.WriteLog? || j.Installing? then
      if NextPair(j.pc).Some? then Some(j.(pc := NextPair(j.pc).value)) else None
    else if j.Commit? || j.Clear? || j.ReadHead? then
      if NextHead(j.hpc).Some? then Some(j.(hpc := NextHead(j.hpc).value)) else None
    else None
  }

  /** Nothing but the job's position changes, and it stands where as much is known. */
  lemma JobMoves(c: Config, st: S.Store, l: Log, j: Job)
    requires LogInv(c, st, l) && l.job != NoJob && j != NoJob
    requires JobOpen(c, l) == JobOpen(c, l.(job := j)) == None
    requires Shape(c, st, l.(job := j)) ==> JobInv(c, st, l.(job := j))
    ensures LogInv(c, st, l.(job := j))
  {
    hide JobInv;
    SameDiskShape(c, st, st, l, j);
  }

  /** write_log is about to start on more blocks than the log area has room for. */
  predicate Overlong(c: Config, l: Log) {
    l.job == WriteLog(0, GetLog) && |l.g.lh| >= c.size
  }

  lemma AdvancePair(c: Config, st: S.Store, l: Log)
    requires LogInv(c, st, l) && (l.job.WriteLog? || l.job.Installing?) && NextPair(l.job.pc).Some?
    requires !Overlong(c, l)
    ensures LogInv(c, st, l.(job := l.job.(pc := NextPair(l.job.pc).value)))
  {
    hide G.Inv, Durable, ReadInv, WholeInv, OpenInv, WorkerInv, S.StoreInv, WfDisk, AllHome, LogHolds, HomeHolds, Replay;
    JobMoves(c, st, l, l.job.(pc := NextPair(l.job.pc).value));
  }

  lemma AdvanceHead(c: Config, st: S.Store, l: Log)
    requires LogInv(c, st, l) && (l.job.Commit? || l.job.Clear? || l.job.ReadHead?) && NextHead(l.job.hpc).Some?
    ensures LogInv(c, st, l.(job := l.job.(hpc := NextHead(l.job.hpc).value)))
  {
    hide G.Inv, Durable, ReadInv, WholeInv, OpenInv;
    JobMoves(c, st, l, l.job.(hpc := NextHead(l.job.hpc).value));
  }

  lemma KeepAdvance(c: Config, st: S.Store, st': S.Store, l: Log, a: S.Act)
    requires LogInv(c, st, l) && S.StoreStep(st, st', a) && S.StoreInv(st')
    requires a.Quiet? || a.Unlock?
    requires Advanced(l.job).Some? && !Overlong(c, l)
    ensures LogInv(c, st', l.(job := Advanced(l.job).value))
  {
    if l.job.WriteLog? || l.job.Installing? { AdvancePair(c, st, l); } else { AdvanceHead(c, st, l); }
    KeepLock(c, st, st', l.(job := Advanced(l.job).value), a);
  }

  lemma SameDiskShape(c: Config, st: S.Store, st': S.Store, l: Log, j: Job)
    requires Shape(c, st, l) && S.StoreInv(st') && st'.disk == st.disk
    ensures Shape(c, st', l.(job := j))
    ensures Latest(l.(job := j)) == Latest(l) && Committed(l.(job := j)) == Committed(l)
  {
  }

  /** The job changes block x in its buffer; what is left to show is where it stands. */
  lemma JobChanges(c: Config, st: S.Store, st': S.Store, l: Log, j: Job, p: nat, x: nat, data: Block)
    requires LogInv(c, st, l) && l.job != NoJob && j != NoJob
    requires S.StoreStep(st, st', S.Change(p, x, data)) && S.StoreInv(st')
    requires JobOpen(c, l) == None && JobOpen(c, l.(job := j)) == Some(x)
    requires Shape(c, st', l.(job := j)) ==> JobInv(c, st', l.(job := j))
    ensures LogInv(c, st', l.(job := j))
  {
    hide JobInv, Durable, WholeInv, G.Inv, IsHead;
    SameDiskShape(c, st, st', l, j);
    JobIsAlone(c, st, l);
  }

  /** write_log copies the cached block into its log block. */
  lemma KeepCopyLog(c: Config, st: S.Store, st': S.Store, l: Log, p: nat)
    requires LogInv(c, st, l) && l.job.WriteLog? && l.job.pc == Copy
    requires S.StoreStep(st, st', S.Change(p, Slot(c, l.job.t), st.val[l.g.lh[l.job.t]])) && S.StoreInv(st')
    ensures LogInv(c, st', l.(job := WriteLog(l.job.t, Store)))
  {
    hide Durable, WholeInv, G.Inv, IsHead, WorkerInv;
    JobIsAlone(c, st, l);
    var t, lh := l.job.t, l.g.lh;
    assert Home(c, lh[t]) && lh[t] !in st.open;
    var j := WriteLog(t, Store);
    SameDiskShape(c, st, st', l, j);
    assert JobInv(c, st', l.(job := j));
    JobChanges(c, st, st', l, j, p, Slot(c, t), st.val[lh[t]]);
  }

  lemma KeepNextLog(c: Config, st: S.Store, l: Log)
    requires LogInv(c, st, l) && l.job.WriteLog? && l.job.pc == Again
    ensures LogInv(c, st, l.(job := if l.job.t + 1 < |l.g.lh| then WriteLog(l.job.t + 1, GetLog) else Commit(GetHead)))
  {
    hide G.Inv, Durable, ReadInv, WholeInv, OpenInv;
    JobMoves(c, st, l, if l.job.t + 1 < |l.g.lh| then WriteLog(l.job.t + 1, GetLog) else Commit(GetHead));
  }

  /** write_head stores the header in its buffer. */
  lemma KeepPutHead(c: Config, st: S.Store, st': S.Store, l: Log, p: nat)
    requires LogInv(c, st, l) && (l.job == Commit(UseHead) || l.job == Clear(UseHead))
    requires S.StoreStep(st, st', S.Change(p, c.start, PutHead(st.val[c.start], l.g.lh))) && S.StoreInv(st')
    ensures LogInv(c, st', l.(job := l.job.(hpc := StoreHead)))
  {
    hide G.Inv, Replay, LogHolds, HomeHolds, WholeInv, Durable, SetOf, WorkerInv;
    var j := l.job.(hpc := StoreHead);
    SameDiskShape(c, st, st', l, j);
    assert InLog(c, c.start);
    assert JobInv(c, st', l.(job := j));
    JobChanges(c, st, st', l, j, p, c.start, PutHead(st.val[c.start], l.g.lh));
  }

  /** The commit point: one disk write makes every logged write durable. */
  lemma KeepCommitPoint(c: Config, st: S.Store, st': S.Store, l: Log, p: nat)
    requires LogInv(c, st, l) && l.job == Commit(StoreHead)
    requires S.StoreStep(st, st', S.Write(p, c.start)) && S.StoreInv(st')
    ensures LogInv(c, st', l.(job := Commit(ReleaseHead), durable := |l.g.writes|))
  {
    JobIsAlone(c, st, l);
    var l' := l.(job := Commit(ReleaseHead), durable := |l.g.writes|);
    assert l.g.writes[..|l.g.writes|] == l.g.writes;
    assert Committed(l') == Latest(l);
    assert InLog(c, c.start) && c.start !in st.pinned;
    assert st'.pinned == st.pinned;
    assert forall x :: 0 <= x < |st.disk| && x != c.start ==> st'.disk[x] == st.disk[x];
    assert Header(c, st'.disk) == l.g.lh;
    forall x | Home(c, x) && x !in l.g.lh
      ensures st'.disk[x] == Latest(l)[x]
    {
      assert x !in st.pinned && x !in st.open;
    }
  }

  /** install_trans copies a log block to its home buffer. */
  lemma KeepCopyHome(c: Config, st: S.Store, st': S.Store, l: Log, p: nat)
    requires LogInv(c, st, l) && l.job.Installing? && l.job.pc == Copy
    requires S.StoreStep(st, st', S.Change(p, l.g.lh[l.job.t], st.val[Slot(c, l.job.t)])) && S.StoreInv(st')
    ensures LogInv(c, st', l.(job := Installing(l.job.t, Store)))
  {
    hide Durable, WholeInv, G.Inv, IsHead, ReadInv, WorkerInv;
    JobIsAlone(c, st, l);
    var t := l.job.t;
    assert InLog(c, Slot(c, t)) && Home(c, l.g.lh[t]);
    assert Slot(c, t) !in st.pinned;
    assert st.val[Slot(c, t)] == Latest(l)[l.g.lh[t]];
    var j := Installing(t, Store);
    SameDiskShape(c, st, st', l, j);
    assert JobInv(c, st', l.(job := j));
    JobChanges(c, st, st', l, j, p, l.g.lh[t], st.val[Slot(c, t)]);
  }

  /** The job writes the block it changed to disk. */
  lemma JobWrites(c: Config, st: S.Store, st': S.Store, l: Log, j: Job, p: nat, x: nat)
    requires LogInv(c, st, l) && l.job != NoJob && j != NoJob
    requires S.StoreStep(st, st', S.Write(p, x)) && S.StoreInv(st') && x != c.start
    requires JobOpen(c, l) == Some(x) && JobOpen(c, l.(job := j)) == None
    requires Home(c, x) && !l.booting ==> st.val[x] == Latest(l)[x]
    requires Shape(c, st', l.(job := j)) ==> Durable(c, st'.disk, Committed(l)) && JobInv(c, st', l.(job := j))
    ensures LogInv(c, st', l.(job := j))
  {
    JobIsAlone(c, st, l);
    assert st'.open == {};
  }

  /** With an empty header a log block may be written freely. */
  lemma OneMoreLogged(c: Config, d: Disk, d': Disk, lh: seq<nat>, t: nat, v: Disk, w: Disk)
    requires WfDisk(c, d) && Header(c, d) == [] && |v| == |w| == |d| && Durable(c, d, w)
    requires t < |lh| <= c.size - 1 && AllHome(c, lh) && LogHolds(c, d, lh, t, v)
    requires Slot(c, t) < |d| && lh[t] < |v| && d' == d[Slot(c, t) := v[lh[t]]]
    ensures WfDisk(c, d') && Header(c, d') == [] && Durable(c, d', w) && LogHolds(c, d', lh, t + 1, v)
  {
    assert InLog(c, Slot(c, t));
  }

  lemma KeepStoreLog(c: Config, st: S.Store, st': S.Store, l: Log, p: nat)
    requires LogInv(c, st, l) && l.job.WriteLog? && l.job.pc == Store
    requires S.StoreStep(st, st', S.Write(p, Slot(c, l.job.t))) && S.StoreInv(st')
    ensures LogInv(c, st', l.(job := WriteLog(l.job.t, Release1)))
  {
    hide Durable, WholeInv, G.Inv, ReadInv, OpenInv, HeadOf, WfHead, LogHolds;
    var t, lh := l.job.t, l.g.lh;
    LogIsDistinct(c, l.g);
    assert Home(c, lh[t]) && InLog(c, Slot(c, t));
    OneMoreLogged(c, st.disk, st'.disk, lh, t, Latest(l), Committed(l));
    assert Slot(c, t) !in st.pinned;
    JobWrites(c, st, st', l, WriteLog(t, Release1), p, Slot(c, t));
  }

  /** Writing a home block that the header names changes nothing a recovery would find. */
  lemma HomeWriteIsDurable(c: Config, d: Disk, d': Disk, x: nat, data: Block, v: Disk)
    requires WfDisk(c, d) && |v| == |d| && Durable(c, d, v)
    requires x in Header(c, d) && x < |d| && d' == d[x := data]
    ensures Header(c, d') == Header(c, d) && WfDisk(c, d') && Durable(c, d', v)
    ensures forall y :: InLog(c, y) ==> d'[y] == d[y]
  {
    var h := Header(c, d);
    assert Home(c, x) && InLog(c, c.start);
    assert forall k :: 0 <= k < |h| ==> InLog(c, Slot(c, k));
  }

  /** One more block is home, and the log area is as it was. */
  lemma OneMoreHome(c: Config, d: Disk, d': Disk, lh: seq<nat>, t: nat, v: Disk)
    requires WfConfig(c) && |d| == |v| == c.disksize && t < |lh| <= c.size - 1 && AllHome(c, lh)
    requires LogHolds(c, d, lh, |lh|, v) && HomeHolds(c, d, lh, t, v)
    requires Home(c, lh[t]) && d' == d[lh[t] := v[lh[t]]]
    ensures LogHolds(c, d', lh, |lh|, v) && HomeHolds(c, d', lh, t + 1, v)
  {
    assert forall k :: 0 <= k < |lh| ==> InLog(c, Slot(c, k));
  }

  lemma StoredHome(c: Config, st: S.Store, st': S.Store, l: Log, p: nat)
    requires LogInv(c, st, l) && l.job.Installing? && l.job.pc == Store
    requires S.StoreStep(st, st', S.Write(p, l.g.lh[l.job.t])) && S.StoreInv(st')
    ensures Shape(c, st', l.(job := Installing(l.job.t, Release1)))
    ensures Durable(c, st'.disk, Committed(l))
    ensures JobInv(c, st', l.(job := Installing(l.job.t, Release1)))
  {
    hide Durable, WholeInv, ReadInv, OpenInv, WorkerInv, G.Inv, HeadOf;
    hide LogHolds, HomeHolds, SetOf, Replay, S.StoreInv, WfHead, Distinct, IsHead;
    var t, lh := l.job.t, l.g.lh;
    LogIsDistinct(c, l.g);
    HomeIsStored(c, st, st', l, p);
    HeaderInArea(c, st.disk);
    OneMoreHome(c, st.disk, st'.disk, lh, t, Latest(l));
    WithoutFirst(lh, t);
  }

  lemma HomeIsStored(c: Config, st: S.Store, st': S.Store, l: Log, p: nat)
    requires LogInv(c, st, l) && l.job.Installing? && l.job.pc == Store
    requires S.StoreStep(st, st', S.Write(p, l.g.lh[l.job.t])) && S.StoreInv(st')
    ensures WfDisk(c, st'.disk) && Header(c, st'.disk) == Header(c, st.disk) && Durable(c, st'.disk, Committed(l))
    ensures Home(c, l.g.lh[l.job.t])
  {
    hide Durable, WholeInv, ReadInv, OpenInv, WorkerInv, G.Inv, HeadOf;
    hide LogHolds, HomeHolds, SetOf, Replay, S.StoreInv, Distinct, IsHead;
    var t, lh := l.job.t, l.g.lh;
    assert Home(c, lh[t]) && lh[t] in Header(c, st.disk);
    HomeWriteIsDurable(c, st.disk, st'.disk, lh[t], st.val[lh[t]], Committed(l));
  }

  lemma HeaderInArea(c: Config, d: Disk)
    requires WfDisk(c, d)
    ensures |Header(c, d)| <= c.size - 1
  {
  }

  lemma WithoutFirst(lh: seq<nat>, t: nat)
    requires Distinct(lh) && t < |lh|
    ensures SetOf(lh[t + 1..]) == SetOf(lh[t..]) - {lh[t]}
  {
    assert lh[t..] == [lh[t]] + lh[t + 1..];
  }

  lemma LogIsDistinct(c: Config, g: G.State)
    requires G.Inv(c, g)
    ensures Distinct(g.lh) && |g.lh| <= c.logsize
  {
  }

  lemma KeepStoreHome(c: Config, st: S.Store, st': S.Store, l: Log, p: nat)
    requires LogInv(c, st, l) && l.job.Installing? && l.job.pc == Store
    requires S.StoreStep(st, st', S.Write(p, l.g.lh[l.job.t])) && S.StoreInv(st')
    ensures LogInv(c, st', l.(job := Installing(l.job.t, Release1)))
  {
    hide Durable, WholeInv, ReadInv, OpenInv, WorkerInv, Replay, G.Inv, S.StoreInv, LogHolds, HomeHolds, SetOf;
    StoredHome(c, st, st', l, p);
    JobWrites(c, st, st', l, Installing(l.job.t, Release1), p, l.g.lh[l.job.t]);
  }

  lemma KeepNextHome(c: Config, st: S.Store, l: Log)
    requires LogInv(c, st, l) && l.job.Installing? && l.job.pc == Again && l.job.t + 1 < |l.g.lh|
    ensures LogInv(c, st, l.(job := Installing(l.job.t + 1, GetLog)))
  {
    hide G.Inv, Durable, ReadInv, WholeInv, OpenInv;
    JobMoves(c, st, l, Installing(l.job.t + 1, GetLog));
  }

  lemma KeepStartInstall(c: Config, st: S.Store, l: Log)
    requires LogInv(c, st, l) && l.g.lh != [] && (l.job == Commit(HeadDone) || l.job == ReadHead(HeadDone))
    ensures LogInv(c, st, l.(job := Installing(0, GetLog)))
  {
    hide WholeInv, G.Inv, S.StoreInv, Replay, Durable, LogHolds, WfDisk;
    if l.job.ReadHead? {
      ReadHolds(c, st, l);
    }
    assert l.g.lh[0..] == l.g.lh;
  }

  /** After a crash the header that was read names blocks whose contents are in the log. */
  lemma ReadHolds(c: Config, st: S.Store, l: Log)
    requires LogInv(c, st, l) && l.job == ReadHead(HeadDone)
    ensures LogHolds(c, st.disk, l.g.lh, |l.g.lh|, Latest(l))
  {
    hide WholeInv, G.Inv, S.StoreInv, Replay, OpenInv, WorkerInv;
    assert l.g.writes[..|l.g.writes|] == l.g.writes;
  }

  /** Every logged block is home: the header may go. */
  ghost predicate Installed(l: Log) {
    || (l.job.Installing? && l.job.pc == Again && l.job.t + 1 == |l.g.lh|)
    || (l.job == ReadHead(HeadDone) && l.g.lh == [])
  }

  lemma InstalledMeansHome(c: Config, st: S.Store, l: Log)
    requires LogInv(c, st, l) && Installed(l)
    ensures st.pinned == {} && l.durable == |l.g.writes|
    ensures forall x :: Home(c, x) ==> st.disk[x] == Latest(l)[x]
  {
    assert l.g.writes[..|l.g.writes|] == l.g.writes;
    assert Committed(l) == Latest(l);
    var h := Header(c, st.disk);
    assert h == l.g.lh;
    forall x | Home(c, x)
      ensures st.disk[x] == Latest(l)[x]
    {
      if x in l.g.lh {
        var i :| 0 <= i < |l.g.lh| && l.g.lh[i] == x;
      } else {
        assert x !in h;
      }
    }
  }

  /** `log.lh.n = 0` at the end of a commit. */
  lemma KeepClearCommit(c: Config, st: S.Store, l: Log, g': G.State)
    requires LogInv(c, st, l) && Installed(l) && !l.booting && G.Clear(c, l.g, g', l.worker)
    ensures LogInv(c, st, l.(job := Clear(GetHead), g := g'))
  {
    hide G.Inv, S.StoreInv, Replay, LogHolds, HomeHolds;
    InstalledMeansHome(c, st, l);
    G.ClearInv(c, l.g, g', l.worker);
  }

  /** The same in recovery, where no process is in an operation. */
  lemma KeepClearBoot(c: Config, st: S.Store, l: Log)
    requires LogInv(c, st, l) && Installed(l) && l.booting
    ensures LogInv(c, st, l.(job := Clear(GetHead), g := l.g.(lh := [])))
  {
    hide G.Inv, S.StoreInv, Replay, LogHolds, HomeHolds, SetOf;
    InstalledMeansHome(c, st, l);
    BootLog(c, l.g, []);
  }

  /** With no operation in progress any header that fits may be loaded. */
  lemma BootLog(c: Config, g: G.State, lh: seq<nat>)
    requires G.Inv(c, g) && |lh| <= c.logsize && Distinct(lh) && (lh != [] ==> 2 <= c.size) && g.asleep == {}
    requires forall p :: 0 <= p < |g.ctl| ==> g.ctl[p].Idle?
    ensures G.Inv(c, g.(lh := lh))
  {
    assert g.ctl == seq(|g.ctl|, _ => G.Idle);
    G.AllIdle(c, |g.ctl|);
  }

  /** The last disk write of a commit or a recovery empties the log. */
  lemma KeepClearPoint(c: Config, st: S.Store, st': S.Store, l: Log, p: nat)
    requires LogInv(c, st, l) && l.job == Clear(StoreHead)
    requires S.StoreStep(st, st', S.Write(p, c.start)) && S.StoreInv(st')
    ensures LogInv(c, st', l.(job := Clear(ReleaseHead)))
  {
    JobIsAlone(c, st, l);
    assert l.g.writes[..|l.g.writes|] == l.g.writes;
    assert InLog(c, c.start);
    assert st'.pinned == {};
    assert forall x :: 0 <= x < |st.disk| && x != c.start ==> st'.disk[x] == st.disk[x];
  }

  lemma KeepFinish(c: Config, st: S.Store, l: Log)
    requires LogInv(c, st, l) && l.job == Clear(HeadDone) && !l.booting
    ensures LogInv(c, st, l.(job := Finish))
  {
  }

  lemma KeepDone(c: Config, st: S.Store, l: Log, g': G.State)
    requires LogInv(c, st, l) && l.job == Finish && G.Done(c, l.g, g', l.worker)
    ensures LogInv(c, st, l.(job := NoJob, g := g'))
  {
    JobIsAlone(c, st, l);
    G.DoneInv(c, l.g, g', l.worker);
    forall p | 0 <= p < |g'.ctl|
      ensures !g'.ctl[p].Op?
    {
      assert p != l.worker ==> g'.ctl[p] == l.g.ctl[p];
    }
  }

  /** Recovery is over: everything reads as committed. */
  lemma KeepBooted(c: Config, st: S.Store, l: Log)
    requires LogInv(c, st, l) && l.job == Clear(HeadDone) && l.booting
    ensures LogInv(c, st, l.(job := NoJob, booting := false))
  {
    JobIsAlone(c, st, l);
  }

  /** read_head. */
  lemma KeepReadHead(c: Config, st: S.Store, l: Log)
    requires LogInv(c, st, l) && l.job == ReadHead(UseHead)
    ensures WfHead(c, HeadOf(st.val[c.start]))
    ensures LogInv(c, st, l.(job := ReadHead(ReleaseHead), g := l.g.(lh := HeadOf(st.val[c.start]))))
  {
    JobIsAlone(c, st, l);
    assert st.val[c.start] == st.disk[c.start];
    BootLog(c, l.g, HeadOf(st.val[c.start]));
  }

  // ---- crash ----

  /** Memory is lost: no operation, no lock, no cached block; only committed writes count. */
  function Crashed(c: Config, l: Log): Log
    requires l.durable <= |l.g.writes|
  {
    Log(G.State([], 0, false, seq(c.nproc, _ => G.Idle), {}, l.g.nextId, l.g.txn, l.g.writes[..l.durable]),
        ReadHead(GetHead), 0, true, l.base, l.durable)
  }

  lemma CrashedRecord(c: Config, l: Log)
    requires G.Inv(c, l.g) && l.durable <= |l.g.writes|
    ensures G.Inv(c, Crashed(c, l).g)
  {
    G.AllIdle(c, c.nproc);
    assert forall w :: w in l.g.writes[..l.durable] ==> w in l.g.writes;
  }

  lemma CrashedShape(c: Config, st: S.Store, l: Log)
    requires Shape(c, st, l)
    ensures Shape(c, S.Store(st.disk, st.disk, {}, map[], {}), Crashed(c, l))
    ensures Committed(Crashed(c, l)) == Committed(l)
  {
    CrashedRecord(c, l);
    var l' := Crashed(c, l);
    assert l'.g.writes[..l.durable] == l'.g.writes;
    assert forall i :: 0 <= i < |l'.g.writes| ==> l'.g.writes[i] == l.g.writes[i];
  }

  lemma KeepCrash(c: Config, st: S.Store, l: Log)
    requires LogInv(c, st, l)
    ensures LogInv(c, S.Store(st.disk, st.disk, {}, map[], {}), Crashed(c, l))
    ensures Committed(Crashed(c, l)) == Committed(l)
  {
    CrashedShape(c, st, l);
  }
}
