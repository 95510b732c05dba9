/**
 Commits and recoveries come to an end. Whenever nobody holds a buffer and there are
 enough of them, the worker can go on, call by call, until its job is done.
 */
module Completion {
  import opened Options
  import opened Sequences
  import opened Params
  import opened Blocks
  import opened LogDisk
  import opened CrashLog
  import opened Storage
  import opened CacheCalls
  import opened StackCalls
  import B = SharedCache
  import G = GroupCommit
  import S = BlockStore
  import C = BufferCache
  import R = CacheRoom

  /** A state of a run between two calls of the worker, with nobody holding a buffer. */
  ghost predicate Resting(c: Config, s: State) {
    Reach(c, s) && Contained(c) && s.bio.refs == {}
  }

  lemma RestingFacts(c: Config, s: State)
    requires Resting(c, s)
    ensures Inv(c, s) && B.Inv(s.bio) && Settled(s.bio) && |s.bio.cache.bufs| == c.nbuf && |s.bio.disk| == c.disksize
    ensures B.Abs(s.bio).locked == map[] && B.Abs(s.bio).open == {}
    ensures |s.log.g.lh| <= c.logsize && AllHome(c, s.log.g.lh) && WfConfig(c)
  {
    hide Reach;
    ReachInv(c, s);
    NobodyHolds(s.bio);
    hide B.Inv, B.Abs;
    hide JobInv, OpenInv, ReadInv, WholeInv, WorkerInv, Durable, S.StoreInv;
  }

  lemma NobodyHolds(m: B.Bio)
    requires B.Inv(m) && m.refs == {}
    ensures B.Abs(m).locked == map[] && B.Abs(m).open == {}
  {
    forall x: nat | 0 <= x < |m.disk|
      ensures B.Holder(m, x) == None && !B.IsOpen(m, x)
    {
    }
  }

  /** Enough buffers: two, and in a commit one more than there are logged blocks. */
  predicate Enough(c: Config, l: Log) {
    2 <= c.nbuf && (l.booting || |l.g.lh| < c.nbuf)
  }

  /** What is pinned has been logged, and nothing is in a recovery. */
  lemma FewPinned(c: Config, s: State)
    requires Inv(c, s)
    ensures B.Abs(s.bio).pinned == {} || (!s.log.booting && |B.Abs(s.bio).pinned| <= |s.log.g.lh|)
  {
    hide B.Inv, B.Abs, S.StoreInv, Durable, ReadInv, OpenInv, WorkerInv, WholeInv, Replay, LogHolds, HomeHolds, AllInstalled, IsHead;
    SetOfSize(s.log.g.lh);
    if s.log.job.Installing? {
      SetOfSize(s.log.g.lh[Rounds(s.log.job.t, s.log.job.pc)..]);
    }
  }

  lemma CanFetch(c: Config, s: State, x: nat)
    requires Inv(c, s) && Enough(c, s.log) && (s.bio.refs == {} || (s.log.booting && |s.bio.refs| == 1))
    ensures C.Fetchable(s.bio.cache.bufs, x)
  {
    hide LogInv, B.Inv, B.Abs;
    FewPinned(c, s);
    R.EnoughBuffers(s.bio);
  }

  /** At the start of a round: its two blocks are on the disk, and one of them is no log block. */
  predicate AtPair(l: Log) {
    (l.job.WriteLog? || l.job.Installing?) && l.job.pc == GetLog
  }

  lemma PairPlace(c: Config, s: State)
    requires Inv(c, s) && Contained(c) && Enough(c, s.log) && AtPair(s.log)
    ensures s.log.job.t < |s.log.g.lh| <= c.size - 1
    ensures Slot(c, s.log.job.t) < c.disksize && Home(c, s.log.g.lh[s.log.job.t]) && !Home(c, Slot(c, s.log.job.t))
  {
    hide B.Inv, B.Abs, S.StoreInv, Durable, ReadInv, OpenInv, WholeInv, Replay, LogHolds, HomeHolds, IsHead;
    LogAtMost(c, s);
  }

  /** The worker w holds exactly these two buffers, with block x in a and block y in b. */
  ghost predicate HasPair(c: Config, s: State, o: State, x: nat, a: nat, y: nat, b: nat) {
    var w := s.log.worker;
    && Sound(s.bio, c.nbuf) && B.Has(s.bio, w, a, x) && B.Has(s.bio, w, b, y)
    && s.bio.refs == {B.Ref(w, a, B.Holding), B.Ref(w, b, B.Holding)}
    && B.Abs(s.bio).locked == map[x := w, y := w] && B.Abs(s.bio).open == {}
    && |s.bio.disk| == |o.bio.disk|
  }

  /** The two breads of a round. */
  lemma PairReads(c: Config, s: State) returns (s': State, a: nat, b: nat)
    requires Resting(c, s) && Enough(c, s.log) && AtPair(s.log)
    ensures s.log.job.t < |s.log.g.lh|
    ensures Leads(c, s, s') && Reach(c, s') && s'.log == s.log.(job := s.log.job.(pc := Copy))
    ensures HasPair(c, s', s, Slot(c, s.log.job.t), a, s.log.g.lh[s.log.job.t], b)
  {
    hide Reach, Leads, LogInv, B.Inv, B.Abs, B.Has, C.Fetchable;
    RestingFacts(c, s);
    PairPlace(c, s);
    var x, y, w := Slot(c, s.log.job.t), s.log.g.lh[s.log.job.t], s.log.worker;
    CanFetch(c, s, x);
    var s1, a' := WorkerBread(c, s, x);
    B.AbsDisk(s.bio);
    B.AbsDisk(s1.bio);
    ReachInv(c, s1);
    HomeFetchable(c, s1);
    assert Ready(s1, x);
    var s2, b' := WorkerBread(c, s1, y);
    B.AbsDisk(s2.bio);
    LeadsTwice(c, s, s1, s2);
    s', a, b := s2, a', b';
    assert {} + {B.Ref(w, a, B.Holding)} + {B.Ref(w, b, B.Holding)} == {B.Ref(w, a, B.Holding), B.Ref(w, b, B.Holding)};
  }

  lemma HomeFetchable(c: Config, s: State)
    requires Inv(c, s) && Enough(c, s.log) && (s.log.job.WriteLog? || s.log.job.Installing?) && s.log.job.pc == GetHome
    requires s.log.job.t < |s.log.g.lh| && |s.bio.refs| == 1
    ensures C.Fetchable(s.bio.cache.bufs, s.log.g.lh[s.log.job.t])
  {
    hide LogInv, B.Inv, B.Abs, C.Fetchable;
    if s.log.booting {
      CanFetch(c, s, s.log.g.lh[s.log.job.t]);
    } else {
      LoggedIsPinned(c, B.Abs(s.bio), s.log, s.log.job.t);
      PinnedIsCached(s.bio, s.log.g.lh[s.log.job.t]);
    }
  }

  /** The copy and the write of a round. */
  lemma PairWrites(c: Config, s: State, a: nat, b: nat) returns (s': State)
    requires Reach(c, s) && (s.log.job.WriteLog? || s.log.job.Installing?) && s.log.job.pc == Copy && s.log.job.t < |s.log.g.lh|
    requires HasPair(c, s, s, Slot(c, s.log.job.t), a, s.log.g.lh[s.log.job.t], b)
    requires Slot(c, s.log.job.t) < |s.bio.disk| && s.log.g.lh[s.log.job.t] < |s.bio.disk|
    ensures Leads(c, s, s') && Reach(c, s') && s'.log == s.log.(job := s.log.job.(pc := Release1))
    ensures HasPair(c, s', s, Slot(c, s.log.job.t), a, s.log.g.lh[s.log.job.t], b)
  {
    hide Reach, Leads, B.Inv, B.Abs;
    var x, y, w := Slot(c, s.log.job.t), s.log.g.lh[s.log.job.t], s.log.worker;
    var src, dst, to := if s.log.job.WriteLog? then b else a, if s.log.job.WriteLog? then a else b, if s.log.job.WriteLog? then x else y;
    var data := s.bio.cache.bufs[src].data;
    var m1, m2 := Rewrite(s.bio, w, dst, to, data);
    var s1 := State(m1, s.log.(job := s.log.job.(pc := Store)));
    TakesCopy(c, s, s1, src, dst);
    s' := State(m2, s.log.(job := s.log.job.(pc := Release1)));
    TakesWrite(c, s1, s', dst);
    LeadsTwice(c, s, s1, s');
  }

  /** The two brelses. */
  lemma PairReleases(c: Config, s: State, a: nat, b: nat) returns (s': State)
    requires Reach(c, s) && (s.log.job.WriteLog? || s.log.job.Installing?) && s.log.job.pc == Release1 && s.log.job.t < |s.log.g.lh|
    requires Slot(c, s.log.job.t) != s.log.g.lh[s.log.job.t]
    requires HasPair(c, s, s, Slot(c, s.log.job.t), a, s.log.g.lh[s.log.job.t], b)
    ensures Leads(c, s, s') && Reach(c, s') && s'.log == s.log.(job := s.log.job.(pc := Again)) && s'.bio.refs == {}
  {
    hide Reach, Leads, B.Inv, B.Abs;
    var x, y, w := Slot(c, s.log.job.t), s.log.g.lh[s.log.job.t], s.log.worker;
    var first, second := if s.log.job.WriteLog? then b else a, if s.log.job.WriteLog? then a else b;
    var fx, sx := if s.log.job.WriteLog? then y else x, if s.log.job.WriteLog? then x else y;
    assert a != b;
    hide B.Has;
    var s1 := WorkerBrelse(c, s, first, fx);
    var s2 := WorkerBrelse(c, s1, second, sx);
    LeadsTwice(c, s, s1, s2);
    s' := s2;
    assert {B.Ref(w, a, B.Holding), B.Ref(w, b, B.Holding)} - {B.Ref(w, first, B.Holding)} - {B.Ref(w, second, B.Holding)} == {};
  }

  /** A whole round up to its last brelse. */
  lemma Pair(c: Config, s: State) returns (s': State)
    requires Resting(c, s) && Enough(c, s.log) && AtPair(s.log)
    ensures Leads(c, s, s') && Resting(c, s') && s'.log == s.log.(job := s.log.job.(pc := Again))
  {
    hide Reach, Leads, HasPair, Inv, B.Inv, B.Abs;
    RestingFacts(c, s);
    PairPlace(c, s);
    var s1, a, b := PairReads(c, s);
    SameSize(c, s1, s, Slot(c, s.log.job.t), a, s.log.g.lh[s.log.job.t], b);
    var s2 := PairWrites(c, s1, a, b);
    SameSize(c, s2, s1, Slot(c, s.log.job.t), a, s.log.g.lh[s.log.job.t], b);
    s' := PairReleases(c, s2, a, b);
    LeadsTwice(c, s, s1, s2);
    LeadsTwice(c, s, s2, s');
  }

  lemma SameSize(c: Config, s: State, o: State, x: nat, a: nat, y: nat, b: nat)
    requires HasPair(c, s, o, x, a, y, b)
    ensures |s.bio.disk| == |o.bio.disk| && HasPair(c, s, s, x, a, y, b)
  {
  }

  // ---- the header ----

  /** The bread of the header block. */
  lemma HeadReads(c: Config, s: State) returns (s': State, b: nat)
    requires Resting(c, s) && Enough(c, s.log) && Wanted(c, s.log) == Some(c.start)
    requires (s.log.job.Commit? || s.log.job.Clear? || s.log.job.ReadHead?) && s.log.job.hpc == GetHead
    ensures Leads(c, s, s') && Reach(c, s') && s'.log == s.log.(job := s.log.job.(hpc := UseHead))
    ensures HasHead(c, s', b)
  {
    hide Reach, Leads, LogInv, B.Inv, B.Abs, B.Has, C.Fetchable;
    RestingFacts(c, s);
    CanFetch(c, s, c.start);
    s', b := WorkerBread(c, s, c.start);
    B.AbsDisk(s.bio);
    B.AbsDisk(s'.bio);
    assert {} + {B.Ref(s.log.worker, b, B.Holding)} == {B.Ref(s.log.worker, b, B.Holding)};
  }

  /** The worker holds the header's buffer and no other. */
  ghost predicate HasHead(c: Config, s: State, b: nat) {
    var w := s.log.worker;
    && Sound(s.bio, c.nbuf) && B.Has(s.bio, w, b, c.start) && s.bio.refs == {B.Ref(w, b, B.Holding)}
    && B.Abs(s.bio).locked == map[c.start := w] && B.Abs(s.bio).open == {} && c.start < |s.bio.disk|
  }

  /** The rest of write_head. */
  lemma HeadWrites(c: Config, s: State, b: nat) returns (s': State)
    requires Reach(c, s) && HasHead(c, s, b) && |s.log.g.lh| < WORDS && s.log.job in {Commit(UseHead), Clear(UseHead)}
    ensures Leads(c, s, s') && Reach(c, s') && HasHead(c, s', b)
    ensures s'.log == s.log.(job := s.log.job.(hpc := ReleaseHead),
                      durable := if s.log.job.Commit? then |s.log.g.writes| else s.log.durable)
  {
    hide Reach, Leads, B.Inv, B.Abs, PutHead;
    var data := PutHead(s.bio.cache.bufs[b].data, s.log.g.lh);
    var m1, m2 := Rewrite(s.bio, s.log.worker, b, c.start, data);
    var s1 := State(m1, s.log.(job := s.log.job.(hpc := StoreHead)));
    TakesHeader(c, s, s1, b);
    s' := State(m2, s.log.(job := s.log.job.(hpc := ReleaseHead),
                     durable := if s.log.job.Commit? then |s.log.g.writes| else s.log.durable));
    TakesWrite(c, s1, s', b);
    LeadsTwice(c, s, s1, s');
  }

  lemma HeadReleases(c: Config, s: State, b: nat) returns (s': State)
    requires Reach(c, s) && Contained(c) && HasHead(c, s, b)
    requires (s.log.job.Commit? || s.log.job.Clear? || s.log.job.ReadHead?) && s.log.job.hpc == ReleaseHead
    ensures Leads(c, s, s') && Resting(c, s') && s'.log == s.log.(job := s.log.job.(hpc := HeadDone))
  {
    hide Reach, Leads, B.Inv, B.Abs, B.Has;
    s' := WorkerBrelse(c, s, b, c.start);
  }

  /** write_head, for the commit and for the clearing of the log. */
  lemma Head(c: Config, s: State) returns (s': State)
    requires Resting(c, s) && Enough(c, s.log) && s.log.job in {Commit(GetHead), Clear(GetHead)}
    ensures Leads(c, s, s') && Resting(c, s')
    ensures s'.log == s.log.(job := s.log.job.(hpc := HeadDone),
                      durable := if s.log.job.Commit? then |s.log.g.writes| else s.log.durable)
  {
    hide Reach, Leads, HasHead, Inv, B.Inv, B.Abs;
    RestingFacts(c, s);
    var s1, b := HeadReads(c, s);
    var s2 := HeadWrites(c, s1, b);
    s' := HeadReleases(c, s2, b);
    LeadsTwice(c, s, s1, s2);
    LeadsTwice(c, s, s2, s');
  }

  /** read_head. */
  lemma HeadLoads(c: Config, s: State) returns (s': State)
    requires Resting(c, s) && Enough(c, s.log) && s.log.job == ReadHead(GetHead)
    ensures Leads(c, s, s') && Resting(c, s')
    ensures s'.log == s.log.(job := ReadHead(HeadDone), g := s.log.g.(lh := s'.log.g.lh))
  {
    hide Reach, Leads, B.Inv, B.Abs, B.Has, HeadOf;
    var s1, b := HeadReads(c, s);
    var s2 := HeadLoaded(c, s1, b);
    s' := HeadReleases(c, s2, b);
    LeadsTwice(c, s, s1, s2);
    LeadsTwice(c, s, s2, s');
  }

  lemma HeadLoaded(c: Config, s: State, b: nat) returns (s': State)
    requires Reach(c, s) && HasHead(c, s, b) && s.log.job == ReadHead(UseHead)
    ensures Leads(c, s, s') && Reach(c, s') && HasHead(c, s', b)
    ensures s'.log == s.log.(job := ReadHead(ReleaseHead), g := s.log.g.(lh := s'.log.g.lh))
  {
    hide Reach, Leads, B.Inv, B.Abs, HeadOf;
    s' := s.(log := s.log.(job := ReadHead(ReleaseHead), g := s.log.g.(lh := HeadOf(s.bio.cache.bufs[b].data))));
    TakesHeader(c, s, s', b);
  }

  // ---- whole jobs ----

  /** One turn of a loop, or on to the next function. */
  lemma Turns(c: Config, s: State, l: Log) returns (s': State)
    requires Resting(c, s) && TurnStep(c, s, s.(log := l))
    ensures s' == s.(log := l) && Leads(c, s, s') && Resting(c, s')
  {
    hide Reach, Leads, TurnStep;
    s' := s.(log := l);
    TakesTurn(c, s, s');
  }

  /** write_log, from round t on. */
  lemma {:induction false} WriteLogEnds(c: Config, s: State) returns (s': State)
    requires Resting(c, s) && Enough(c, s.log) && s.log.job.WriteLog? && s.log.job.pc == GetLog
    ensures Leads(c, s, s') && Resting(c, s') && s'.log == s.log.(job := Commit(GetHead))
    decreases |s.log.g.lh| - s.log.job.t
  {
    hide Resting, Leads, Inv;
    RestingFacts(c, s);
    assert Contained(c) by { IsContained(c, s); }
    PairPlace(c, s);
    var t, lh := s.log.job.t, s.log.g.lh;
    var s1 := Pair(c, s);
    var l := s1.log.(job := if t + 1 < |lh| then WriteLog(t + 1, GetLog) else Commit(GetHead));
    NotPending(c, s1);
    var s2 := Turns(c, s1, l);
    LeadsTwice(c, s, s1, s2);
    if t + 1 < |lh| {
      s' := WriteLogEnds(c, s2);
      LeadsTwice(c, s, s2, s');
    } else {
      s' := s2;
    }
  }

  lemma IsContained(c: Config, s: State)
    requires Resting(c, s)
    ensures Contained(c)
  {
  }

  lemma NotPending(c: Config, s: State)
    requires Resting(c, s)
    ensures !B.Pending(s.bio, s.log.worker) && s.bio.refs == {}
  {
  }

  /** The log record when install_trans is through. */
  function Cleared(l: Log): Log {
    if l.booting then l.(job := Clear(GetHead), g := l.g.(lh := []))
    else l.(job := Clear(GetHead), g := l.g.(lh := [], txn := l.g.txn + 1))
  }

  lemma ClearsLog(c: Config, s: State)
    requires Inv(c, s) && s.log.job != NoJob
    ensures ClearLog(c, s.log, Cleared(s.log))
    ensures !s.log.booting ==> s.log.g.committing && s.log.worker < |s.log.g.ctl| && s.log.g.ctl[s.log.worker].Committing?
  {
    hide B.Inv, B.Abs, Shape, JobInv, OpenInv, ReadInv, WholeInv, Durable;
  }

  /** install_trans, from round t on. */
  lemma {:induction false} InstallEnds(c: Config, s: State) returns (s': State)
    requires Resting(c, s) && Enough(c, s.log) && s.log.job.Installing? && s.log.job.pc == GetLog
    ensures Leads(c, s, s') && Resting(c, s') && s'.log == Cleared(s.log)
    decreases |s.log.g.lh| - s.log.job.t
  {
    hide Resting, Leads, Inv, ClearLog;
    RestingFacts(c, s);
    IsContained(c, s);
    PairPlace(c, s);
    var t, lh := s.log.job.t, s.log.g.lh;
    var s1 := Pair(c, s);
    RestingFacts(c, s1);
    ClearsLog(c, s1);
    NotPending(c, s1);
    var l := if t + 1 < |lh| then s1.log.(job := Installing(t + 1, GetLog)) else Cleared(s1.log);
    var s2 := Turns(c, s1, l);
    LeadsTwice(c, s, s1, s2);
    if t + 1 < |lh| {
      s' := InstallEnds(c, s2);
      LeadsTwice(c, s, s2, s');
    } else {
      s' := s2;
    }
  }

  /** The log record after everything. */
  function Ended(l: Log): Log {
    if l.booting then l.(job := NoJob, booting := false)
    else if l.worker < |l.g.ctl| then
      l.(job := NoJob, g := l.g.(committing := false, ctl := l.g.ctl[l.worker := G.Idle], asleep := {}))
    else l
  }

  /** end_op after commit has returned. */
  lemma FinishEnds(c: Config, s: State) returns (s': State)
    requires Resting(c, s) && s.log.job == Finish
    ensures Leads(c, s, s') && Resting(c, s') && s'.log == Ended(s.log)
    ensures !s.log.booting && s.log.worker < |s.log.g.ctl|
  {
    hide Resting, Leads;
    RestingFacts(c, s);
    FinishFacts(c, s);
    hide Inv;
    ClearsLog(c, s);
    NotPending(c, s);
    s' := Turns(c, s, Ended(s.log));
  }

  lemma FinishFacts(c: Config, s: State)
    requires Inv(c, s) && s.log.job == Finish
    ensures !s.log.booting && s.log.g.lh == []
  {
    hide B.Inv, B.Abs, S.StoreInv, Durable, ReadInv, OpenInv, WholeInv;
  }

  /** The clearing of the header, and what follows. */
  lemma ClearEnds(c: Config, s: State) returns (s': State)
    requires Resting(c, s) && Enough(c, s.log) && s.log.job == Clear(GetHead)
    ensures Leads(c, s, s') && Resting(c, s') && s'.log == Ended(s.log)
    ensures s.log.booting || s.log.worker < |s.log.g.ctl|
  {
    hide Resting, Leads, Inv;
    var s1 := Head(c, s);
    NotPending(c, s1);
    if s.log.booting {
      s' := Turns(c, s1, Ended(s1.log));
      LeadsTwice(c, s, s1, s');
    } else {
      var s2 := Turns(c, s1, s1.log.(job := Finish));
      LeadsTwice(c, s, s1, s2);
      s' := FinishEnds(c, s2);
      LeadsTwice(c, s, s2, s');
    }
  }

  /**
   A commit, from the moment end_op starts it, can always be finished if nobody holds a
   buffer and there is one more than there are logged blocks. Then everything logged is
   committed and at home, the log is empty, and the process is out of end_op.
   */
  lemma CommitCompletes(c: Config, s: State) returns (s': State)
    requires Resting(c, s) && s.log.job in {WriteLog(0, GetLog), Finish} && |s.log.g.lh| < c.nbuf
    ensures Leads(c, s, s') && Resting(c, s') && s'.log.job == NoJob && !s'.log.booting && !s'.log.g.committing
    ensures s'.log.g.lh == [] && s'.log.g.writes == s.log.g.writes && s'.log.durable == |s.log.g.writes|
    ensures s.log.worker < |s.log.g.ctl| && s'.log.g.ctl == s.log.g.ctl[s.log.worker := G.Idle]
    ensures WfDisk(c, s'.bio.disk) && Header(c, s'.bio.disk) == [] && |Latest(s.log)| == |s'.bio.disk|
    ensures forall x :: Home(c, x) ==> s'.bio.disk[x] == Latest(s.log)[x]
  {
    hide Resting, Leads, Inv, Header, Replay;
    RestingFacts(c, s);
    CommitFacts(c, s);
    if s.log.job == Finish {
      s' := FinishEnds(c, s);
    } else {
      var s1 := WriteLogEnds(c, s);
      var s2 := Head(c, s1);
      NotPending(c, s2);
      var s3 := Turns(c, s2, s2.log.(job := Installing(0, GetLog)));
      var s4 := InstallEnds(c, s3);
      s' := ClearEnds(c, s4);
      LeadsTwice(c, s, s1, s2);
      LeadsTwice(c, s, s2, s3);
      LeadsTwice(c, s, s3, s4);
      LeadsTwice(c, s, s4, s');
    }
    AtHome(c, s');
    assert s'.log.g.writes[..s'.log.durable] == s.log.g.writes;
  }

  lemma CommitFacts(c: Config, s: State)
    requires Inv(c, s) && s.log.job in {WriteLog(0, GetLog), Finish}
    ensures !s.log.booting && (s.log.job == Finish ==> s.log.g.lh == [] && s.log.durable == |s.log.g.writes|)
    ensures s.log.job != Finish ==> s.log.g.lh != []
  {
    hide B.Inv, B.Abs, S.StoreInv, Durable, ReadInv, OpenInv, WholeInv, LogHolds;
  }

  lemma AtHome(c: Config, s: State)
    requires Resting(c, s) && s.log.job == NoJob
    ensures WfDisk(c, s.bio.disk) && Header(c, s.bio.disk) == [] && |s.log.base| == |s.bio.disk|
    ensures forall x :: Home(c, x) ==> s.bio.disk[x] == Committed(s.log)[x]
  {
    hide StepBy, Boot, Committed;
    var run, steps :| IsRun(c, run, steps) && |run| == |steps| + 1 && run[|steps|] == s;
    hide IsRun;
    QuietDisk(c, run, steps, |steps|);
  }

  /**
   A recovery, from power-on or a crash, can always be finished with two buffers. Then
   every home block is as committed, and the log is empty.
   */
  lemma RecoveryCompletes(c: Config, s: State) returns (s': State)
    requires Resting(c, s) && s.log.job == ReadHead(GetHead) && 2 <= c.nbuf
    ensures Leads(c, s, s') && Resting(c, s') && s'.log.job == NoJob && !s'.log.booting && s'.log.g.lh == []
    ensures s'.log.g.writes == s.log.g.writes && s'.log.durable == s.log.durable && s'.log.base == s.log.base
    ensures WfDisk(c, s'.bio.disk) && Header(c, s'.bio.disk) == [] && |Committed(s.log)| == |s'.bio.disk|
    ensures forall x :: Home(c, x) ==> s'.bio.disk[x] == Committed(s.log)[x]
  {
    hide Resting, Leads, Inv, Header, Replay, ClearLog;
    RestingFacts(c, s);
    RecoveryFacts(c, s);
    var s1 := HeadLoads(c, s);
    NotPending(c, s1);
    RestingFacts(c, s1);
    ClearsLog(c, s1);
    var s3;
    if s1.log.g.lh == [] {
      s3 := Turns(c, s1, Cleared(s1.log));
    } else {
      var s2 := Turns(c, s1, s1.log.(job := Installing(0, GetLog)));
      s3 := InstallEnds(c, s2);
      LeadsTwice(c, s1, s2, s3);
    }
    LeadsTwice(c, s, s1, s3);
    s' := ClearEnds(c, s3);
    LeadsTwice(c, s, s3, s');
    AtHome(c, s');
  }

  lemma RecoveryFacts(c: Config, s: State)
    requires Inv(c, s) && s.log.job == ReadHead(GetHead)
    ensures s.log.booting
  {
    hide B.Inv, B.Abs, S.StoreInv, Durable, ReadInv, OpenInv, WholeInv;
  }
}
