/**
 Runs of the storage stack in which the logged list outgrows the log area, and
 what comes of them: nothing on disk while the cache has no more buffers than the
 area has blocks, an overwritten home block as soon as it has one more.
 */
module Overrun {
  import opened Options
  import opened Sequences
  import opened Params
  import opened Blocks
  import opened LogDisk
  import opened CrashLog
  import opened Storage
  import opened CacheCalls
  import opened StackCalls
  import B = SharedCache
  import G = GroupCommit
  import S = BlockStore
  import C = BufferCache
  import R = CacheRoom

  /** The cache agrees with disk d; these blocks are pinned and locked. */
  ghost predicate View(c: Config, m: B.Bio, d: Disk, pinned: set<nat>, locked: map<nat, nat>, refs: set<B.Ref>) {
    Sound(m, c.nbuf) && m.disk == d && m.refs == refs && B.Abs(m) == S.Store(d, d, pinned, locked, {})
  }

  // ---- recovery of an empty log ----

  lemma EmptyHeader()
    ensures HeadOf(Zero()) == [] && IsHead(Zero(), []) && PutHead(Zero(), []) == Zero()
  {
    assert PutHead(Zero(), []) == [0] + [] + Zero()[1..];
  }

  lemma BootIsThere(c: Config, d: Disk)
    requires WfConfig(c) && |d| == c.disksize && d[c.start] == Zero()
    ensures WfDisk(c, d) && Reach(c, Boot(c, d))
    ensures Boot(c, d).log == Log(G.Init(c), ReadHead(GetHead), 0, true, d, 0)
    ensures View(c, Boot(c, d).bio, d, {}, map[], {})
  {
    EmptyHeader();
    assert Recover(c, d) == d;
    FreshCache(c, d);
    assert IsRun(c, [Boot(c, d)], []);
  }

  /** A buffer held by p holds what the disk holds. */
  lemma DataIs(m: B.Bio, p: nat, b: nat, x: nat)
    requires B.Inv(m) && B.Has(m, p, b, x)
    ensures x < |B.Abs(m).val| && m.cache.bufs[b].data == B.Abs(m).val[x]
  {
    B.BreadReturnsLatest(m, p, b, x);
  }

  /** read_head finds nothing. */
  lemma BootReads(c: Config, d: Disk) returns (s: State)
    requires WfConfig(c) && |d| == c.disksize && d[c.start] == Zero() && 1 <= c.nbuf
    ensures Reach(c, s) && s.log == Log(G.Init(c), Clear(GetHead), 0, true, d, 0) && View(c, s.bio, d, {}, map[], {})
  {
    hide Reach, Boot, B.Inv, B.Abs, HeadOf;
    BootIsThere(c, d);
    var s0 := Boot(c, d);
    R.EnoughBuffers(s0.bio);
    var s1, b := WorkerBread(c, s0, c.start);
    DataIs(s1.bio, 0, b, c.start);
    EmptyHeader();
    var s2 := s1.(log := s1.log.(job := ReadHead(ReleaseHead)));
    TakesHeader(c, s1, s2, b);
    var s3 := WorkerBrelse(c, s2, b, c.start);
    s := s3.(log := s3.log.(job := Clear(GetHead)));
    TakesTurn(c, s3, s);
    B.AbsDisk(s.bio);
    assert s.bio.refs == {} && map[c.start := 0] - {c.start} == map[];
  }

  /** write_head of an empty list over an empty header. */
  lemma HeadCleared(c: Config, s: State, d: Disk, b: nat) returns (s': State)
    requires Reach(c, s) && s.log == Log(G.Init(c), Clear(UseHead), 0, true, d, 0) && B.Has(s.bio, 0, b, c.start)
    requires View(c, s.bio, d, {}, map[c.start := 0], s.bio.refs) && c.start < |d| && d[c.start] == Zero()
    ensures Reach(c, s') && s'.log == s.log.(job := Clear(ReleaseHead)) && B.Has(s'.bio, 0, b, c.start)
    ensures View(c, s'.bio, d, {}, map[c.start := 0], s.bio.refs)
  {
    hide Reach, B.Inv, B.Abs, HeadOf, PutHead;
    DataIs(s.bio, 0, b, c.start);
    EmptyHeader();
    var m1, m2 := Rewrite(s.bio, 0, b, c.start, Zero());
    var s1 := State(m1, s.log.(job := Clear(StoreHead)));
    TakesHeader(c, s, s1, b);
    s' := State(m2, s1.log.(job := Clear(ReleaseHead)));
    TakesWrite(c, s1, s', b);
    assert d[c.start := Zero()] == d;
  }

  lemma Boots(c: Config, d: Disk) returns (s: State)
    requires WfConfig(c) && |d| == c.disksize && d[c.start] == Zero() && 1 <= c.nbuf
    ensures Reach(c, s) && s.log == Log(G.Init(c), NoJob, 0, false, d, 0) && View(c, s.bio, d, {}, map[], {})
  {
    hide Reach, B.Inv, B.Abs, B.Has, C.Fetchable;
    var s0 := BootReads(c, d);
    R.EnoughBuffers(s0.bio);
    assert C.Fetchable(s0.bio.cache.bufs, c.start) by { SomeEligible(s0.bio, c.start); }
    var s1, b := WorkerBread(c, s0, c.start);
    B.AbsDisk(s1.bio);
    var s2 := HeadCleared(c, s1, d, b);
    var s3 := WorkerBrelse(c, s2, b, c.start);
    s := s3.(log := s3.log.(job := NoJob, booting := false));
    TakesTurn(c, s3, s);
    B.AbsDisk(s.bio);
    assert s.bio.refs == {} && map[c.start := 0] - {c.start} == map[];
  }

  // ---- operations at work ----

  /** Recovery is over, the log record is g, and the disk is still d. */
  ghost predicate Calm(c: Config, s: State, d: Disk, g: G.State, locked: map<nat, nat>, refs: set<B.Ref>) {
    && Reach(c, s) && s.log == Log(g, NoJob, 0, false, d, 0) && g.asleep == {} && G.Inv(c, g)
    && View(c, s.bio, d, SetOf(g.lh), locked, refs)
  }

  lemma {:induction false} BeginAll(c: Config, d: Disk, k: nat, i: nat) returns (s: State)
    requires WfConfig(c) && |d| == c.disksize && d[c.start] == Zero() && 1 <= c.nbuf
    requires i <= k <= c.nproc && k * c.maxop <= c.logsize
    ensures Calm(c, s, d, G.Begun(c, i), map[], {})
  {
    hide Reach, View, G.Inv;
    G.BeginMany(c, k, i);
    if i == 0 {
      s := Boots(c, d);
      assert G.Begun(c, 0) == G.Init(c);
      assert SetOf([]) == {};
    } else {
      var s0 := BeginAll(c, d, k, i - 1);
      G.MulMonotone(i, k, c.maxop);
      G.BegunStep(c, i - 1);
      s := s0.(log := s0.log.(g := G.Begun(c, i)));
      ReachStep(c, s0, s, BeginOp(i - 1));
    }
  }

  /** A call of log_write on a block that p has and nobody else wants. */
  lemma CallLogWrite(c: Config, s: State, d: Disk, g: G.State, locked: map<nat, nat>, refs: set<B.Ref>, p: nat, b: nat)
    returns (s': State)
    requires Calm(c, s, d, g, locked, refs) && |d| == c.disksize && G.Roomy(c) && G.InOrder(c, g.lh)
    requires p < |g.ctl| && g.ctl[p].Op? && g.ctl[p].passed == Some(G.Fresh(c, g.lh)) && G.Fresh(c, g.lh) < |d|
    requires B.Has(s.bio, p, b, G.Fresh(c, g.lh))
    ensures Calm(c, s', d, G.Logged(c, g, p, d), locked, refs)
    ensures forall q: nat, a: nat, y: nat :: B.Has(s.bio, q, a, y) ==> B.Has(s'.bio, q, a, y)
  {
    hide Reach, B.Inv, B.Abs, G.Inv;
    var x, g', m := G.Fresh(c, g.lh), G.Logged(c, g, p, d), s.bio;
    DataIs(m, p, b, x);
    B.AbsDisk(m);
    G.AppendInv(c, g, g', p, x, d[x]);
    var m' := B.SetBuf(m, b, m.cache.bufs[b].(dirty := true)).(touched := m.touched - {b});
    s' := State(m', s.log.(g := g'));
    ReachStep(c, s, s', LogWrite(p, b, x));
    Acts(m, m', B.PinStep(p, b, x));
    B.AbsDisk(m');
    assert SetOf(g'.lh) == SetOf(g.lh) + {x};
    forall q: nat, a: nat, y: nat | B.Has(m, q, a, y)
      ensures B.Has(m', q, a, y)
    {
      HasKept(m, m', B.PinStep(p, b, x), q, a, y);
    }
  }

  lemma CanFetch(c: Config, s: State, d: Disk, g: G.State, locked: map<nat, nat>, refs: set<B.Ref>, x: nat)
    requires Calm(c, s, d, g, locked, refs) && |g.lh| + |refs| < c.nbuf
    ensures C.Fetchable(s.bio.cache.bufs, x)
  {
    SetOfSize(g.lh);
    R.EnoughBuffers(s.bio);
  }

  /** Operation p gets block x and passes log_write's guards for it. */
  lemma CallGuard(c: Config, s: State, d: Disk, g: G.State, locked: map<nat, nat>, refs: set<B.Ref>, p: nat, x: nat)
    returns (s': State, b: nat)
    requires Calm(c, s, d, g, locked, refs) && |d| == c.disksize && G.CanLog(c, g, p)
    requires x < |d| && x !in locked && |g.lh| + |refs| < c.nbuf && G.Check(c, g, G.Guarded(g, p, x), p, x)
    ensures Calm(c, s', d, G.Guarded(g, p, x), locked[x := p], refs + {B.Ref(p, b, B.Holding)}) && B.Has(s'.bio, p, b, x)
    ensures forall q: nat, a: nat, y: nat :: B.Has(s.bio, q, a, y) ==> B.Has(s'.bio, q, a, y)
  {
    hide Reach, B.Inv, B.Abs, G.Inv, B.Has, C.Fetchable;
    CanFetch(c, s, d, g, locked, refs, x);
    G.CheckInv(c, g, G.Guarded(g, p, x), p, x);
    var s1, b' := ClientBread(c, s, p, x);
    b := b';
    B.AbsDisk(s1.bio);
    s' := s1.(log := s1.log.(g := G.Guarded(g, p, x)));
    ReachStep(c, s1, s', CheckLogWrite(p, b, x));
  }

  /** Operation p reads a fresh block, logs it and releases it. */
  lemma LogOne(c: Config, s: State, d: Disk, g: G.State, locked: map<nat, nat>, refs: set<B.Ref>, p: nat) returns (s': State)
    requires Calm(c, s, d, g, locked, refs) && |d| == c.disksize && G.Roomy(c) && G.InOrder(c, g.lh) && G.CanLog(c, g, p)
    requires G.Fresh(c, g.lh) !in locked && |g.lh| + |refs| < c.nbuf && forall r :: r in refs ==> r.pid != p
    ensures Calm(c, s', d, G.Logged(c, g, p, d), locked, refs)
    ensures forall q: nat, a: nat, y: nat :: B.Has(s.bio, q, a, y) ==> B.Has(s'.bio, q, a, y)
  {
    hide Reach, B.Inv, B.Abs, G.Inv, G.CanLog;
    var x := G.Fresh(c, g.lh);
    G.LogFresh(c, g, p, d);
    var s1, b := CallGuard(c, s, d, g, locked, refs, p, x);
    var g1 := G.Guarded(g, p, x);
    var s2 := CallLogWrite(c, s1, d, g1, locked[x := p], refs + {B.Ref(p, b, B.Holding)}, p, b);
    assert G.Logged(c, g1, p, d) == G.Logged(c, g, p, d);
    s' := ClientBrelse(c, s2, p, b, x);
    B.AbsDisk(s'.bio);
    assert locked[x := p] - {x} == locked;
    assert refs + {B.Ref(p, b, B.Holding)} - {B.Ref(p, b, B.Holding)} == refs;
  }

  /** All of ps, one after the other. */
  lemma {:induction false} LogAll(c: Config, s: State, d: Disk, g: G.State, locked: map<nat, nat>, refs: set<B.Ref>, ps: seq<nat>)
    returns (s': State)
    requires Calm(c, s, d, g, locked, refs) && |d| == c.disksize && G.Roomy(c) && G.InOrder(c, g.lh) && G.Plays(c, g, ps, d)
    requires |g.lh| + |ps| + |refs| <= c.nbuf && (forall r :: r in refs ==> r.pid !in ps)
    requires forall x :: x in locked ==> x >= G.Fresh(c, g.lh) + |ps|
    ensures Calm(c, s', d, G.Played(c, g, ps, d), locked, refs)
    ensures forall q: nat, a: nat, y: nat :: B.Has(s.bio, q, a, y) ==> B.Has(s'.bio, q, a, y)
    decreases |ps|
  {
    hide Calm, B.Has;
    if ps == [] {
      s' := s;
    } else {
      CalmRecord(c, s, d, g, locked, refs);
      G.LogFresh(c, g, ps[0], d);
      assert ps[0] in ps && forall r :: r in refs ==> r.pid !in ps[1..];
      var s1 := LogOne(c, s, d, g, locked, refs, ps[0]);
      s' := LogAll(c, s1, d, G.Logged(c, g, ps[0], d), locked, refs, ps[1..]);
    }
  }

  lemma CalmRecord(c: Config, s: State, d: Disk, g: G.State, locked: map<nat, nat>, refs: set<B.Ref>)
    requires Calm(c, s, d, g, locked, refs)
    ensures G.Inv(c, g)
  {
  }

  // ---- the overflow ----

  /** The log record with the area full and one block more. */
  function Overfull(c: Config, k: nat, first: seq<nat>, rest: seq<nat>, d: Disk): G.State
    requires G.Crowded(c, k) && |d| == c.disksize && G.Overfills(c, k, first, rest, d)
  {
    G.BrimfulIs(c, k, first, rest, d);
    G.Logged(c, G.Brimful(c, k, first, rest, d), 0, d)
  }

  /** A configuration in which the log can outgrow its area, with buffers for the logged blocks. */
  predicate CanOverflow(c: Config, k: nat) {
    WfConfig(c) && G.Crowded(c, k) && c.size <= c.nbuf
  }

  /** Operation 0 has the last block and has passed the guard for it. */
  lemma HoldGuard(c: Config, k: nat, d: Disk, first: seq<nat>, rest: seq<nat>) returns (s: State, b: nat)
    requires CanOverflow(c, k) && |d| == c.disksize && d[c.start] == Zero() && G.Overfills(c, k, first, rest, d)
    ensures var x, g := G.LastBlock(c), G.Played(c, G.Begun(c, k), first, d);
            && Calm(c, s, d, G.Guarded(g, 0, x), map[x := 0], {B.Ref(0, b, B.Holding)}) && B.Has(s.bio, 0, b, x)
            && G.InOrder(c, g.lh) && |g.lh| == |first|
  {
    hide Calm, B.Has, G.Plays, G.Played, G.CanLog, G.Check, G.Inv, G.Reachable, G.Begun;
    var x, g := G.LastBlock(c), G.Played(c, G.Begun(c, k), first, d);
    var s0 := BeginAll(c, d, k, k);
    BegunEmpty(c, k);
    var s1 := LogAll(c, s0, d, G.Begun(c, k), map[], {}, first);
    G.HoldGuard(c, k, first, d);
    var s2, b' := CallGuard(c, s1, d, g, map[], {}, 0, x);
    assert {} + {B.Ref(0, b', B.Holding)} == {B.Ref(0, b', B.Holding)};
    s, b := s2, b';
  }

  lemma BegunEmpty(c: Config, k: nat)
    ensures G.Begun(c, k).lh == []
  {
  }

  /** The others fill the area, and operation 0 appends its block to the full log. */
  lemma Overflow(c: Config, k: nat, d: Disk, first: seq<nat>, rest: seq<nat>) returns (s: State)
    requires CanOverflow(c, k) && |d| == c.disksize && d[c.start] == Zero() && G.Overfills(c, k, first, rest, d)
    ensures Calm(c, s, d, Overfull(c, k, first, rest, d), map[], {})
  {
    hide B.Has, G.Plays, G.Played, G.Inv, G.Reachable, G.Begun, Reach, View;
    var x := G.LastBlock(c);
    var s0, b := HoldGuard(c, k, d, first, rest);
    var g0 := G.Guarded(G.Played(c, G.Begun(c, k), first, d), 0, x);
    var locked, refs: set<B.Ref> := map[x := 0], {B.Ref(0, b, B.Holding)};
    assert |refs| == 1 && forall r :: r in refs ==> r.pid !in rest;
    var s1 := LogAll(c, s0, d, g0, locked, refs, rest);
    G.BrimfulIs(c, k, first, rest, d);
    var s2 := CallLogWrite(c, s1, d, G.Brimful(c, k, first, rest, d), locked, refs, 0, b);
    s := Rested(c, s2, d, Overfull(c, k, first, rest, d), b, x);
  }

  /** Operation 0 releases its block, and nobody holds one. */
  lemma Rested(c: Config, s: State, d: Disk, g: G.State, b: nat, x: nat) returns (s': State)
    requires Calm(c, s, d, g, map[x := 0], {B.Ref(0, b, B.Holding)}) && B.Has(s.bio, 0, b, x)
    requires 0 < |g.ctl| && g.ctl[0].Op? && g.ctl[0].passed == None
    ensures Calm(c, s', d, g, map[], {})
  {
    hide Reach, B.Inv, B.Abs, G.Inv, B.Has;
    s' := ClientBrelse(c, s, 0, b, x);
    B.AbsDisk(s'.bio);
    assert map[x := 0] - {x} == map[];
    assert {B.Ref(0, b, B.Holding)} - {B.Ref(0, b, B.Holding)} == {};
  }

  lemma OverfullIs(c: Config, k: nat, first: seq<nat>, rest: seq<nat>, d: Disk)
    requires G.Crowded(c, k) && |d| == c.disksize && G.Overfills(c, k, first, rest, d)
    ensures var g := Overfull(c, k, first, rest, d);
            && |g.lh| == c.size && G.InOrder(c, g.lh) && |g.ctl| == c.nproc && g.outstanding == k
            && (forall q :: 0 <= q < k ==> g.ctl[q].Op? && g.ctl[q].passed == None)
  {
    hide G.Plays, G.Played, G.CanLog, G.Inv, G.Reachable;
    G.BrimfulIs(c, k, first, rest, d);
    BrimfulOps(c, k, first, rest, d);
  }

  lemma BrimfulOps(c: Config, k: nat, first: seq<nat>, rest: seq<nat>, d: Disk)
    requires G.Crowded(c, k) && |d| == c.disksize && G.Overfills(c, k, first, rest, d)
    ensures var g := G.Brimful(c, k, first, rest, d);
            && |g.ctl| == c.nproc && g.outstanding == k
            && (forall q :: 0 <= q < k ==> g.ctl[q].Op?) && (forall q :: 1 <= q < k ==> g.ctl[q].passed == None)
  {
    hide G.Plays, G.Played, G.CanLog, G.Inv, G.Reachable;
    G.BeginMany(c, k, k);
    G.PlayedKeeps(c, G.Begun(c, k), first, d);
    G.HoldGuard(c, k, first, d);
    var g := G.Guarded(G.Played(c, G.Begun(c, k), first, d), 0, G.LastBlock(c));
    G.PlayedKeeps(c, g, rest, d);
  }

  /** A run of the whole stack in which the list of logged blocks outgrows the log area. */
  lemma OverflowHappens(c: Config, k: nat) returns (s: State)
    requires CanOverflow(c, k)
    ensures Reach(c, s) && |s.log.g.lh| == c.size
  {
    hide G.Overfills, Reach, View, G.Inv, Overfull;
    var d := FirstDisk(c);
    var first, rest := G.Scripts(c, k, d);
    s := Overflow(c, k, d, first, rest);
    OverfullIs(c, k, first, rest, d);
  }

  function One(): Block {
    seq(WORDS, _ => 1)
  }

  function Contents(c: Config, x: nat): Block {
    if x == c.start + 2 * c.size - 1 then One() else Zero()
  }

  /** A disk with an empty log and one block that is not zero. */
  function FirstDisk(c: Config): (d: Disk)
    requires WfConfig(c)
    ensures |d| == c.disksize && d[c.start] == Zero()
  {
    seq(c.disksize, x requires 0 <= x < c.disksize => Contents(c, x))
  }

  // ---- the commit of a log that has outgrown its area ----

  /** write_log is at round t, and the disk is now as given. */
  ghost predicate Working(c: Config, s: State, d: Disk, now: Disk, lh: seq<nat>, t: nat) {
    && Reach(c, s) && s.log.job == WriteLog(t, GetLog) && s.log.base == d && s.log.durable == 0 && s.log.g.lh == lh
    && View(c, s.bio, now, SetOf(lh), map[], {})
  }

  /** Operations p to k - 1 end, and the last of them starts the commit. */
  lemma {:induction false} EndAll(c: Config, s: State, d: Disk, g: G.State, p: nat, k: nat) returns (s': State)
    requires Calm(c, s, d, g, map[], {}) && p < k <= |g.ctl| && g.outstanding == k - p && g.lh != []
    requires forall q :: p <= q < k ==> g.ctl[q].Op? && g.ctl[q].passed == None
    ensures Working(c, s', d, d, g.lh, 0)
    decreases k - p
  {
    hide Reach, View, G.Inv;
    OpMeansNoCommit(c, g, p);
    NoRefs(c, s, d, g);
    if p == k - 1 {
      var g' := g.(outstanding := 0, committing := true, ctl := g.ctl[p := G.Committing]);
      s' := s.(log := s.log.(g := g', job := WriteLog(0, GetLog), worker := p));
      ReachStep(c, s, s', EndOp(p));
    } else {
      var g' := g.(outstanding := g.outstanding - 1, ctl := g.ctl[p := G.Idle], asleep := {});
      G.EndInv(c, g, g', p);
      var s1 := s.(log := s.log.(g := g'));
      ReachStep(c, s, s1, EndOp(p));
      s' := EndAll(c, s1, d, g', p + 1, k);
    }
  }

  lemma NoRefs(c: Config, s: State, d: Disk, g: G.State)
    requires Calm(c, s, d, g, map[], {})
    ensures s.bio.refs == {}
  {
  }

  /** A round's two breads: its log block and the logged block. */
  lemma RoundReads(c: Config, s: State, d: Disk, now: Disk, lh: seq<nat>, t: nat) returns (s': State, src: nat, dst: nat)
    requires Working(c, s, d, now, lh, t) && t < |lh| < c.nbuf && Distinct(lh)
    requires lh[t] < |now| && Slot(c, t) < |now| && lh[t] != Slot(c, t)
    ensures Reach(c, s') && s'.log == s.log.(job := WriteLog(t, Copy))
    ensures B.Has(s'.bio, s.log.worker, src, lh[t]) && B.Has(s'.bio, s.log.worker, dst, Slot(c, t))
    ensures View(c, s'.bio, now, SetOf(lh), map[Slot(c, t) := s.log.worker, lh[t] := s.log.worker],
                 {B.Ref(s.log.worker, src, B.Holding), B.Ref(s.log.worker, dst, B.Holding)})
  {
    hide Reach, B.Inv, B.Abs, C.Fetchable, B.Has;
    var x, y, w := Slot(c, t), lh[t], s.log.worker;
    SetOfSize(lh);
    R.EnoughBuffers(s.bio);
    assert C.Fetchable(s.bio.cache.bufs, x) by { SomeEligible(s.bio, x); }
    var s1, b1 := WorkerBread(c, s, x);
    PinnedIsCached(s1.bio, y);
    B.AbsDisk(s1.bio);
    assert Ready(s1, x);
    var s2, b2 := WorkerBread(c, s1, y);
    s', src, dst := s2, b2, b1;
    B.AbsDisk(s'.bio);
    assert {} + {B.Ref(w, b1, B.Holding)} + {B.Ref(w, b2, B.Holding)} == {B.Ref(w, b2, B.Holding), B.Ref(w, b1, B.Holding)};
  }

  /** The round copies the logged block over its log block and writes that to disk. */
  lemma RoundWrites(c: Config, s: State, d: Disk, now: Disk, lh: seq<nat>, t: nat) returns (s': State, src: nat, dst: nat)
    requires Working(c, s, d, now, lh, t) && t < |lh| < c.nbuf && Distinct(lh)
    requires lh[t] < |now| && Slot(c, t) < |now| && lh[t] != Slot(c, t)
    ensures Reach(c, s') && s'.log == s.log.(job := WriteLog(t, Release1))
    ensures B.Has(s'.bio, s.log.worker, src, lh[t]) && B.Has(s'.bio, s.log.worker, dst, Slot(c, t))
    ensures View(c, s'.bio, now[Slot(c, t) := now[lh[t]]], SetOf(lh) - {Slot(c, t)},
                 map[Slot(c, t) := s.log.worker, lh[t] := s.log.worker],
                 {B.Ref(s.log.worker, src, B.Holding), B.Ref(s.log.worker, dst, B.Holding)})
  {
    hide Reach, B.Inv, B.Abs, C.Fetchable;
    var x, y, w := Slot(c, t), lh[t], s.log.worker;
    var s1, a, b := RoundReads(c, s, d, now, lh, t);
    src, dst := a, b;
    DataIs(s1.bio, w, a, y);
    var m2, m3 := Rewrite(s1.bio, w, b, x, now[y]);
    var s2 := State(m2, s1.log.(job := WriteLog(t, Store)));
    TakesCopy(c, s1, s2, a, b);
    s' := State(m3, s2.log.(job := WriteLog(t, Release1)));
    TakesWrite(c, s2, s', b);
  }

  /** One whole round on a log block inside the area. */
  lemma Round(c: Config, s: State, d: Disk, now: Disk, lh: seq<nat>, t: nat) returns (s': State)
    requires Working(c, s, d, now, lh, t) && t + 1 < |lh| < c.nbuf && Distinct(lh)
    requires lh[t] < |now| && Slot(c, t) < |now| && Slot(c, t) !in lh
    ensures Working(c, s', d, now[Slot(c, t) := now[lh[t]]], lh, t + 1)
  {
    hide Reach, B.Inv, B.Abs, B.Has;
    var x, y, w := Slot(c, t), lh[t], s.log.worker;
    var s1, a, b := RoundWrites(c, s, d, now, lh, t);
    var s2 := WorkerBrelse(c, s1, a, y);
    assert B.Has(s2.bio, w, b, x) by { Apart(s1.bio, w, a, y, b, x); }
    var s3 := WorkerBrelse(c, s2, b, x);
    s' := s3.(log := s3.log.(job := WriteLog(t + 1, GetLog)));
    TakesTurn(c, s3, s');
    B.AbsDisk(s'.bio);
    assert SetOf(lh) - {x} == SetOf(lh);
    assert map[x := w, y := w] - {y} - {x} == map[];
    assert {B.Ref(w, a, B.Holding), B.Ref(w, b, B.Holding)} - {B.Ref(w, a, B.Holding)} - {B.Ref(w, b, B.Holding)} == {};
  }

  lemma Apart(m: B.Bio, w: nat, a: nat, y: nat, b: nat, x: nat)
    requires B.Has(m, w, a, y) && B.Has(m, w, b, x) && x != y
    ensures a != b
  {
  }

  lemma {:induction false} Rounds(c: Config, s: State, d: Disk, lh: seq<nat>, n: nat) returns (s': State, now: Disk)
    requires Working(c, s, d, d, lh, 0) && n < |lh| == c.size < c.nbuf && Distinct(lh) && G.InOrder(c, lh)
    requires |d| == c.disksize && c.start + 2 * c.size <= c.disksize
    ensures Working(c, s', d, now, lh, n) && |now| == |d|
    ensures forall x :: 0 <= x < |d| && !(c.start < x < c.start + c.size) ==> now[x] == d[x]
  {
    hide Working;
    if n == 0 {
      s', now := s, d;
    } else {
      var s1, before := Rounds(c, s, d, lh, n - 1);
      s' := Round(c, s1, d, before, lh, n - 1);
      now := before[Slot(c, n - 1) := before[lh[n - 1]]];
    }
  }

  /** The commit has begun with more blocks logged than the area has room for. */
  lemma OverlongHappens(c: Config, k: nat) returns (s: State)
    requires CanOverflow(c, k)
    ensures Working(c, s, FirstDisk(c), FirstDisk(c), s.log.g.lh, 0) && |s.log.g.lh| == c.size
    ensures Distinct(s.log.g.lh) && G.InOrder(c, s.log.g.lh)
  {
    hide G.Overfills, Reach, View, G.Inv, Overfull;
    var d := FirstDisk(c);
    var first, rest := G.Scripts(c, k, d);
    var s0 := Overflow(c, k, d, first, rest);
    OverfullIs(c, k, first, rest, d);
    s := EndAll(c, s0, d, Overfull(c, k, first, rest, d), 0, k);
  }

  /**
   With one buffer more than the log area has blocks, the commit goes on: write_log
   writes its last block past the area, over the home block behind it.
   */
  lemma HomeBlockOverwritten(c: Config, k: nat) returns (s: State)
    requires CanOverflow(c, k) && c.size < c.nbuf
    ensures Reach(c, s) && Home(c, c.start + c.size) && WfDisk(c, s.bio.disk) && |s.log.base| == |s.bio.disk|
    ensures Recover(c, s.bio.disk)[c.start + c.size] != Committed(s.log)[c.start + c.size]
  {
    hide Reach, B.Inv, B.Abs, B.Has, Replay;
    var d := FirstDisk(c);
    var s0 := OverlongHappens(c, k);
    var lh, t := s0.log.g.lh, c.size - 1;
    var s1, now := Rounds(c, s0, d, lh, t);
    assert lh[t] == G.LastBlock(c) && Slot(c, t) == c.start + c.size;
    var s2, src, dst := RoundWrites(c, s1, d, now, lh, t);
    s := s2;
    var disk := now[c.start + c.size := now[G.LastBlock(c)]];
    assert s.bio.disk == disk && disk[c.start] == Zero();
    EmptyHeader();
    assert Recover(c, disk)[c.start + c.size] == One();
    assert Committed(s.log) == d by { assert s.log.g.writes[..0] == []; NoWrites(d); }
    assert One()[0] != Zero()[0];
  }

  lemma NoWrites(d: Disk)
    ensures Replay(d, []) == d
  {
  }

  /** Every state of every run recovers to what is committed. */
  ghost predicate AlwaysSafe(c: Config) {
    forall s :: Reach(c, s) ==> AsCommitted(c, s)
  }

  /**
   Exactly when the stack is crash safe. Two operations or more share the log, whose
   budgets fill it; then every reachable disk recovers to the committed contents if
   and only if LOGSIZE <= log.size - 1 or NBUF <= log.size.
   */
  lemma CrashSafetyExact(c: Config, k: nat)
    requires WfConfig(c) && 0 < c.maxop && 2 <= k <= c.nproc && c.logsize == k * c.maxop && 2 <= c.size && G.Roomy(c)
    ensures AlwaysSafe(c) <==> Contained(c)
  {
    hide AsCommitted, Reach, Recover, Committed;
    if Contained(c) {
      forall s | Reach(c, s)
        ensures AsCommitted(c, s)
      {
        ReachIsSafe(c, s);
      }
    } else {
      var s := HomeBlockOverwritten(c, k);
      assert !AsCommitted(c, s) by { NotCommitted(c, s, c.start + c.size); }
    }
  }

  lemma NotCommitted(c: Config, s: State, x: nat)
    requires WfDisk(c, s.bio.disk) && |s.log.base| == |s.bio.disk| && Home(c, x) && Recover(c, s.bio.disk)[x] != Committed(s.log)[x]
    ensures !AsCommitted(c, s)
  {
  }

  lemma ReachIsSafe(c: Config, s: State)
    requires Reach(c, s) && Contained(c)
    ensures AsCommitted(c, s)
  {
    hide StepBy, Boot;
    var run, steps :| IsRun(c, run, steps) && run[|steps|] == s;
    CrashSafety(c, run, steps, |steps|);
  }

  /** The logged list stays in the log area in every run. */
  ghost predicate AlwaysInArea(c: Config) {
    forall s :: Reach(c, s) ==> |s.log.g.lh| <= c.size - 1
  }

  /** Exactly when it does: LOGSIZE <= log.size - 1, or too few buffers to hold more. */
  lemma AreaExact(c: Config, k: nat)
    requires WfConfig(c) && 0 < c.maxop && 2 <= k <= c.nproc && c.logsize == k * c.maxop && 2 <= c.size && G.Roomy(c)
    ensures AlwaysInArea(c) <==> c.logsize <= c.size - 1 || c.nbuf < c.size
  {
    hide Reach, StepBy;
    if c.logsize <= c.size - 1 || c.nbuf < c.size {
      forall s | Reach(c, s)
        ensures |s.log.g.lh| <= c.size - 1
      {
        ReachInv(c, s);
        LogAtMost(c, s);
        if |s.log.g.lh| >= c.size { LogInBuffers(c, s); }
      }
    } else {
      var s := OverflowHappens(c, k);
    }
  }

  // ---- whom log_write's guard stops ----

  /**
   Operation p, which has logged m blocks, calls log_write on a block that it has and
   may log, and ends in panic("too big a transaction").
   */
  ghost predicate Refused(c: Config, s: State, p: nat, b: nat, x: nat, m: nat) {
    && p < |s.log.g.ctl| && s.log.g.ctl[p].Op? && s.log.g.ctl[p].passed == None && |s.log.g.ctl[p].used| == m
    && B.Has(s.bio, p, b, x) && !B.Pending(s.bio, p) && Home(c, x)
    && G.MayLog(c, s.log.g.ctl[p], x) && G.TooBig(c, s.log.g)
  }

  /** No run stops an operation that has logged m blocks. */
  ghost predicate NeverRefused(c: Config, m: nat) {
    forall s, p: nat, b: nat, x: nat :: Reach(c, s) ==> !Refused(c, s, p, b, x, m)
  }

  /** While an operation is in progress every logged block has a buffer. */
  lemma LoggedHaveBuffers(c: Config, s: State, p: nat)
    requires Reach(c, s) && Contained(c) && p < |s.log.g.ctl| && s.log.g.ctl[p].Op?
    ensures |s.log.g.lh| <= c.nbuf
  {
    hide Reach, LogInv, B.Inv, B.Abs;
    ReachInv(c, s);
    OpMeansNoJob(c, B.Abs(s.bio), s.log, p);
    LogInBuffers(c, s);
  }

  lemma ReachRecord(c: Config, s: State)
    requires Reach(c, s)
    ensures G.Inv(c, s.log.g)
  {
    hide StepBy, Boot, G.Inv;
    var run, steps :| IsRun(c, run, steps) && |run| == |steps| + 1 && run[|steps|] == s;
    hide IsRun;
    RunRecord(c, run, steps, |steps|);
  }

  lemma RefusedIsNotSpared(c: Config, s: State, p: nat, b: nat, x: nat, m: nat)
    requires Reach(c, s) && Refused(c, s, p, b, x, m) && 2 <= c.size
    ensures !G.Spared(c, m) && G.Cap(c) <= c.nbuf
  {
    hide Reach, B.Has, B.Pending;
    ReachRecord(c, s);
    G.StoppedIsNotSpared(c, s.log.g, p);
    if c.nbuf < G.Cap(c) { LoggedHaveBuffers(c, s, p); }
  }

  /** A run that fills the log to where the guard strikes, and an operation that then logs the first block. */
  lemma RefusedHappens(c: Config, k: nat, m: nat) returns (s: State, b: nat, x: nat)
    requires WfConfig(c) && G.Whole(c, k) && m <= c.maxop && !G.Spared(c, m) && G.Cap(c) <= c.nbuf
    ensures Reach(c, s) && Refused(c, s, 0, b, x, m)
  {
    hide Reach, View, G.Inv, G.Begun, G.Plays, G.Played, G.Reachable, B.Has;
    var d := FirstDisk(c);
    var first, rest := G.StopScripts(c, k, m, d);
    G.StoppedIs(c, k, m, first, rest, d);
    var s0 := Filled(c, k, m, first, rest, d);
    s, b := ReadAgain(c, s0, d, G.Stopped(c, k, m, first, rest, d), 0);
    x := s.log.g.lh[0];
  }

  lemma Filled(c: Config, k: nat, m: nat, first: seq<nat>, rest: seq<nat>, d: Disk) returns (s: State)
    requires WfConfig(c) && G.Whole(c, k) && |d| == c.disksize && d[c.start] == Zero() && G.Cap(c) <= c.nbuf
    requires G.Stops(c, k, m, first, rest, d)
    ensures Calm(c, s, d, G.Stopped(c, k, m, first, rest, d), map[], {})
  {
    hide Calm, G.Plays, G.Played, G.Inv, G.Reachable, G.Begun;
    var g := G.Begun(c, k);
    var s0 := BeginAll(c, d, k, k);
    BegunEmpty(c, k);
    G.BeginMany(c, k, k);
    G.PlayedKeeps(c, g, first, d);
    var s1 := LogAll(c, s0, d, g, map[], {}, first);
    s := LogAll(c, s1, d, G.Played(c, g, first, d), map[], {}, rest);
  }

  /** A process reads the first logged block, which is still in its buffer. */
  lemma ReadAgain(c: Config, s: State, d: Disk, g: G.State, p: nat) returns (s': State, b: nat)
    requires Calm(c, s, d, g, map[], {}) && g.lh != [] && g.lh[0] < |d| && p < |g.ctl| && g.ctl[p].Op? && g.ctl[p].passed == None
    ensures Reach(c, s') && s'.log == s.log && B.Has(s'.bio, p, b, g.lh[0]) && !B.Pending(s'.bio, p)
  {
    hide Reach, B.Inv, B.Abs, G.Inv, B.Has;
    assert g.lh[0] in SetOf(g.lh);
    PinnedIsCached(s.bio, g.lh[0]);
    s', b := ClientBread(c, s, p, g.lh[0]);
  }

  /**
   Exactly whom log_write's guard spares in the runs of the whole stack: an operation
   that the log record spares, and every operation if the cache has too few buffers for
   the log to get as far as the guard.
   */
  lemma GuardExact(c: Config, k: nat, m: nat)
    requires WfConfig(c) && G.Whole(c, k) && m <= c.maxop
    ensures NeverRefused(c, m) <==> G.Spared(c, m) || c.nbuf < G.Cap(c)
  {
    hide Reach, Refused, G.Spared;
    if G.Spared(c, m) || c.nbuf < G.Cap(c) {
      forall s, p: nat, b: nat, x: nat | Reach(c, s)
        ensures !Refused(c, s, p, b, x, m)
      {
        if Refused(c, s, p, b, x, m) { RefusedIsNotSpared(c, s, p, b, x, m); }
      }
    } else {
      var s, b, x := RefusedHappens(c, k, m);
    }
  }

  /** No run stops an operation with budget left. */
  ghost predicate NeverTooBig(c: Config) {
    forall m :: 0 <= m < c.maxop ==> NeverRefused(c, m)
  }

  /**
   So exactly when the reservation protects log_write, LOGSIZE being whole budgets:
   if the log area has room for LOGSIZE blocks beside its header, or NBUF < log.size - 1.
   */
  lemma TooBigExact(c: Config, k: nat)
    requires WfConfig(c) && G.Whole(c, k)
    ensures NeverTooBig(c) <==> c.logsize <= c.size - 1 || c.nbuf < c.size - 1
  {
    hide NeverRefused;
    forall m | 0 <= m < c.maxop
      ensures NeverRefused(c, m) <==> G.Spared(c, m) || c.nbuf < G.Cap(c)
    {
      GuardExact(c, k, m);
    }
    G.MulMonotone(1, k, c.maxop);
    if c.size - 1 < c.logsize {
      var m := if c.size - 1 < c.maxop - 1 then c.size - 1 else c.maxop - 1;
      assert !G.Spared(c, m);
    }
  }

  /** bget has no buffer for the block the job asks for: panic("bget: no buffers"). */
  ghost predicate OutOfBuffers(c: Config, s: State) {
    Wanted(c, s.log).Some? && !C.Fetchable(s.bio.cache.bufs, Wanted(c, s.log).value)
  }

  /** While the cache has no more buffers than the area has blocks, a commit of a log that has outgrown it goes no further. */
  lemma OverflowPanics(c: Config, s: State)
    requires Reach(c, s) && c.nbuf <= c.size && |s.log.g.lh| >= c.size
    ensures s.log.job == NoJob || OutOfBuffers(c, s)
  {
    hide Reach, Inv;
    ReachInv(c, s);
    LogAtMost(c, s);
    if s.log.job != NoJob { FullCache(c, s); }
  }

  // ---- a commit without buffers ----

  /** With nobody holding a buffer, a commit has one to begin with. */
  ghost predicate NeverStarved(c: Config) {
    forall s :: Reach(c, s) && s.log.job == WriteLog(0, GetLog) && s.bio.refs == {} ==> !OutOfBuffers(c, s)
  }

  lemma NotStarved(c: Config, s: State)
    requires Reach(c, s) && Contained(c) && c.logsize < c.nbuf && s.log.job == WriteLog(0, GetLog) && s.bio.refs == {}
    ensures !OutOfBuffers(c, s)
  {
    hide Reach, B.Inv, B.Abs, LogInv;
    ReachInv(c, s);
    LogAtMost(c, s);
    LogIsPinned(c, s);
    R.EnoughBuffers(s.bio);
  }

  /** k operations log n blocks and end. */
  lemma CommitOf(c: Config, k: nat, n: nat) returns (s: State)
    requires WfConfig(c) && G.Whole(c, k) && 0 < n <= G.Cap(c) && n <= c.nbuf
    ensures Working(c, s, FirstDisk(c), FirstDisk(c), s.log.g.lh, 0) && |s.log.g.lh| == n
  {
    hide Calm, G.Plays, G.Played, G.Inv, G.Reachable, G.Begun;
    var d, g := FirstDisk(c), G.Begun(c, k);
    G.BeginMany(c, k, k);
    G.BegunOps(c, k);
    G.BudgetIs(c, k);
    var ps := G.Script(c, g, 0, k, n, d);
    G.PlayedKeeps(c, g, ps, d);
    var s0 := BeginAll(c, d, k, k);
    var s1 := LogAll(c, s0, d, g, map[], {}, ps);
    s := EndAll(c, s1, d, G.Played(c, g, ps, d), 0, k);
  }

  /** A commit of as many blocks as there are buffers has none to begin with. */
  lemma StarvedHappens(c: Config, k: nat) returns (s: State)
    requires WfConfig(c) && G.Whole(c, k) && c.logsize <= c.size - 1 && 1 <= c.nbuf <= c.logsize
    ensures Reach(c, s) && |s.log.g.lh| == c.nbuf && s.log.job == WriteLog(0, GetLog) && s.bio.refs == {} && OutOfBuffers(c, s)
  {
    hide Reach, Inv;
    s := CommitOf(c, k, c.nbuf);
    ReachInv(c, s);
    FullCache(c, s);
  }

  /** Exactly when, in a log area of the right size, every commit has one: LOGSIZE < NBUF. */
  lemma CommitBuffersExact(c: Config, k: nat)
    requires WfConfig(c) && G.Whole(c, k) && c.logsize <= c.size - 1 && 1 <= c.nbuf
    ensures NeverStarved(c) <==> c.logsize < c.nbuf
  {
    hide Reach, OutOfBuffers;
    if c.logsize < c.nbuf {
      forall s | Reach(c, s) && s.log.job == WriteLog(0, GetLog) && s.bio.refs == {}
        ensures !OutOfBuffers(c, s)
      {
        NotStarved(c, s);
      }
    } else {
      var s := StarvedHappens(c, k);
    }
  }

  // ---- an end_op that returns too early ----

  /** Two operations are in progress, and operation 0 has logged a block. */
  lemma TwoAtWork(c: Config) returns (s: State)
    requires WfConfig(c) && 0 < c.maxop && 2 <= c.nproc && 2 * c.maxop <= c.logsize && 2 <= c.size && G.Roomy(c) && 1 <= c.nbuf
    ensures Calm(c, s, FirstDisk(c), s.log.g, map[], {}) && |s.log.g.ctl| == c.nproc && s.log.g.outstanding == 2
    ensures s.log.g.ctl[0].Op? && s.log.g.ctl[0].passed == None && !s.log.g.committing
    ensures |s.log.g.writes| == 1 && s.log.g.writes[0].op == s.log.g.ctl[0].id
  {
    hide Reach, View, G.Inv;
    var d, g := FirstDisk(c), G.Begun(c, 2);
    var s0 := BeginAll(c, d, 2, 2);
    s := LogOne(c, s0, d, g, map[], {}, 0);
  }

  /**
   end_op of an operation that is not the last one returns, and what the operation
   logged is not committed; a crash at that moment loses it.
   */
  lemma EarlyReturn(c: Config) returns (s: State, s1: State, s2: State)
    requires WfConfig(c) && 0 < c.maxop && 2 <= c.nproc && 2 * c.maxop <= c.logsize && 2 <= c.size && G.Roomy(c) && 1 <= c.nbuf
    ensures Reach(c, s) && StepBy(c, s, s1, EndOp(0)) && StepBy(c, s1, s2, Crash) && s1.log.job == NoJob
    ensures 0 < |s.log.g.ctl| && s.log.g.ctl[0].Op?
    ensures var op := s.log.g.ctl[0].id; Wrote(s, op) && !Survives(s, s1, op) && !Survives(s, s2, op) && !Wrote(s2, op)
  {
    hide Reach, View, G.Inv;
    s := TwoAtWork(c);
    var g := s.log.g;
    NoRefs(c, s, FirstDisk(c), g);
    var g1 := g.(outstanding := 1, ctl := g.ctl[0 := G.Idle], asleep := {});
    s1 := s.(log := s.log.(g := g1));
    s2 := State(B.Init(s1.bio.disk, c.nbuf), Crashed(c, s1.log));
  }

  // ---- the configuration of the repository ----

  /** The kernel as it is shipped is crash safe: NBUF and log.size are both 30. */
  lemma RepositoryIsCrashSafe(run: seq<State>, steps: seq<Step>, i: nat)
    requires IsRun(REPOSITORY, run, steps) && i < |run|
    ensures AsCommitted(REPOSITORY, run[i])
  {
    hide IsRun;
    CrashSafety(REPOSITORY, run, steps, i);
  }

  /** But its log can outgrow its area, and the commit that follows has no buffer to begin with. */
  lemma RepositoryCanPanic() returns (s: State)
    ensures Reach(REPOSITORY, s) && |s.log.g.lh| == REPOSITORY.size && OutOfBuffers(REPOSITORY, s)
  {
    hide View, Reach, OutOfBuffers;
    assert CanOverflow(REPOSITORY, 3);
    s := OverlongHappens(REPOSITORY, 3);
    OverflowPanics(REPOSITORY, s);
  }

  /** And an operation with budget left can end in panic("too big a transaction"). */
  lemma RepositoryCanRefuse()
    ensures !NeverTooBig(REPOSITORY)
  {
    TooBigExact(REPOSITORY, 3);
  }

  /** A log area one block larger would cure both, but a full log would still find no buffer for its commit. */
  lemma LargerAreaCanPanic() returns (s: State)
    ensures var c := REPOSITORY.(size := REPOSITORY.size + 1);
            Reach(c, s) && |s.log.g.lh| == c.logsize && s.bio.refs == {} && OutOfBuffers(c, s)
  {
    hide Reach, OutOfBuffers;
    s := StarvedHappens(REPOSITORY.(size := REPOSITORY.size + 1), 3);
  }
}
