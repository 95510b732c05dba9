/**
 The in-memory side of log.c: begin_op, end_op and log_write over the shared
 `log` record, as a step system in which any process may move at any time.
 Each step is what the code does between taking and releasing log.lock, except
 that log_write's two guards are read before the lock is taken and so are a
 step of their own.
 */
module GroupCommit {
  import opened Options
  import opened Sequences
  import opened Params
  import opened Blocks
  import opened LogDisk

  /** One log_write: `op` changed `block` to `data` in transaction `txn`. */
  datatype Write = Write(op: nat, block: nat, data: Block, txn: nat)

  datatype Ctl =
    | Idle
    | Op(id: nat, txn: nat, used: set<nat>, passed: Option<nat>)  // between begin_op and end_op
    | Committing                                                  // in end_op's commit

  datatype State = State(
    lh: seq<nat>,          // log.lh.block[0..log.lh.n]
    outstanding: int,
    committing: bool,
    ctl: seq<Ctl>,         // one entry per process
    asleep: set<nat>,      // processes asleep on &log in begin_op
    nextId: nat,           // history: name of the next operation
    txn: nat,              // history: name of the current transaction
    writes: seq<Write>)    // history: every log_write so far

  function Init(c: Config): State {
    State([], 0, false, seq(c.nproc, _ => Idle), {}, 0, 0, [])
  }

  // ---- steps ----

  predicate CanBegin(c: Config, g: State) {
    !g.committing && |g.lh| + (g.outstanding + 1) * c.maxop <= c.logsize
  }

  predicate Begin(c: Config, g: State, g': State, p: nat) {
    && p < |g.ctl| && g.ctl[p].Idle? && p !in g.asleep && CanBegin(c, g)
    && g' == g.(outstanding := g.outstanding + 1, nextId := g.nextId + 1,
             ctl := g.ctl[p := Op(g.nextId, g.txn, {}, None)])
  }

  /** begin_op finds a commit or no room; what wakes it up sends it round its loop again. */
  predicate Sleep(c: Config, g: State, g': State, p: nat) {
    && p < |g.ctl| && g.ctl[p].Idle? && p !in g.asleep && !CanBegin(c, g)
    && g' == g.(asleep := g.asleep + {p})
  }

  /** The operation may still log `x` within its MAXOPBLOCKS distinct blocks. */
  predicate MayLog(c: Config, o: Ctl, x: nat) {
    o.Op? && (x in o.used || |o.used| < c.maxop)
  }

  /** log_write's first guard: panic("too big a transaction"). */
  predicate TooBig(c: Config, g: State) {
    |g.lh| >= c.logsize || |g.lh| >= c.size - 1
  }

  /** Where it strikes: LOGSIZE blocks, or all the log area has room for. */
  function Cap(c: Config): int {
    if c.logsize < c.size - 1 then c.logsize else c.size - 1
  }

  /** The two guards of log_write, read without log.lock, let the call go on; callers log home blocks. */
  predicate Check(c: Config, g: State, g': State, p: nat, x: nat) {
    && Home(c, x) && p < |g.ctl| && MayLog(c, g.ctl[p], x) && g.ctl[p].passed == None
    && !TooBig(c, g) && g.outstanding >= 1
    && g' == g.(ctl := g.ctl[p := g.ctl[p].(passed := Some(x))])
  }

  function Absorb(lh: seq<nat>, x: nat): seq<nat> {
    if x in lh then lh else lh + [x]
  }

  /** The locked part of log_write. */
  predicate Append(c: Config, g: State, g': State, p: nat, x: nat, data: Block) {
    && p < |g.ctl| && g.ctl[p].Op? && g.ctl[p].passed == Some(x)
    && g' == g.(lh := Absorb(g.lh, x),
             ctl := g.ctl[p := g.ctl[p].(used := g.ctl[p].used + {x}, passed := None)],
             writes := g.writes + [Write(g.ctl[p].id, x, data, g.txn)])
  }

  /** end_op up to the call of commit; panics instead when `committing` is set. */
  predicate End(c: Config, g: State, g': State, p: nat) {
    && p < |g.ctl| && g.ctl[p].Op? && g.ctl[p].passed == None
    && !g.committing
    && g' == if g.outstanding - 1 == 0
             then g.(outstanding := 0, committing := true, ctl := g.ctl[p := Committing])
             else g.(outstanding := g.outstanding - 1, ctl := g.ctl[p := Idle], asleep := {})
  }

  /** commit's `log.lh.n = 0`. */
  predicate Clear(c: Config, g: State, g': State, p: nat) {
    && p < |g.ctl| && g.ctl[p].Committing?
    && g' == g.(lh := [], txn := g.txn + 1)
  }

  /** end_op after commit returned. */
  predicate Done(c: Config, g: State, g': State, p: nat) {
    && p < |g.ctl| && g.ctl[p].Committing? && g.lh == []
    && g' == g.(committing := false, ctl := g.ctl[p := Idle], asleep := {})
  }

  datatype Step =
    | BeginStep(p: nat)
    | SleepStep(p: nat)
    | CheckStep(p: nat, x: nat)
    | AppendStep(p: nat, x: nat, data: Block)
    | EndStep(p: nat)
    | ClearStep(p: nat)
    | DoneStep(p: nat)

  predicate StepBy(c: Config, g: State, g': State, s: Step) {
    match s
    case BeginStep(p) => Begin(c, g, g', p)
    case SleepStep(p) => Sleep(c, g, g', p)
    case CheckStep(p, x) => Check(c, g, g', p, x)
    case AppendStep(p, x, d) => Append(c, g, g', p, x, d)
    case EndStep(p) => End(c, g, g', p)
    case ClearStep(p) => Clear(c, g, g', p)
    case DoneStep(p) => Done(c, g, g', p)
  }

  ghost predicate Next(c: Config, g: State, g': State) {
    exists s: Step :: StepBy(c, g, g', s)
  }

  /** A run: a non-empty sequence of states, from Init, each following by a step. */
  ghost predicate IsRun(c: Config, run: seq<State>) {
    && |run| > 0 && run[0] == Init(c)
    && forall i :: 0 <= i < |run| - 1 ==> Next(c, run[i], run[i + 1])
  }

  ghost predicate Reachable(c: Config, g: State) {
    exists run :: IsRun(c, run) && run[|run| - 1] == g
  }

  // ---- what is conserved ----

  function CountOps(ctl: seq<Ctl>): nat {
    if ctl == [] then 0
    else CountOps(ctl[..|ctl| - 1]) + if ctl[|ctl| - 1].Op? then 1 else 0
  }

  function Slack(c: Config, o: Ctl): nat {
    if o.Op? && |o.used| <= c.maxop then c.maxop - |o.used| else 0
  }

  /** The unused budget of all outstanding operations. */
  function Unused(c: Config, ctl: seq<Ctl>): nat {
    if ctl == [] then 0
    else Unused(c, ctl[..|ctl| - 1]) + Slack(c, ctl[|ctl| - 1])
  }

  lemma {:induction false} CountOpsUpdate(ctl: seq<Ctl>, p: nat, o: Ctl)
    requires p < |ctl|
    ensures CountOps(ctl[p := o]) + (if ctl[p].Op? then 1 else 0) == CountOps(ctl) + (if o.Op? then 1 else 0)
  {
    var n := |ctl| - 1;
    if p == n {
      assert ctl[p := o][..n] == ctl[..n];
    } else {
      assert ctl[p := o][..n] == ctl[..n][p := o];
      CountOpsUpdate(ctl[..n], p, o);
    }
  }

  lemma {:induction false} UnusedUpdate(c: Config, ctl: seq<Ctl>, p: nat, o: Ctl)
    requires p < |ctl|
    ensures Unused(c, ctl[p := o]) + Slack(c, ctl[p]) == Unused(c, ctl) + Slack(c, o)
  {
    var n := |ctl| - 1;
    if p == n {
      assert ctl[p := o][..n] == ctl[..n];
    } else {
      assert ctl[p := o][..n] == ctl[..n][p := o];
      UnusedUpdate(c, ctl[..n], p, o);
    }
  }

  lemma {:induction false} AllIdle(c: Config, n: nat)
    ensures CountOps(seq(n, _ => Idle)) == 0
    ensures Unused(c, seq(n, _ => Idle)) == 0
  {
    if n > 0 {
      AllIdle(c, n - 1);
      assert seq(n, _ => Idle)[..n - 1] == seq(n - 1, _ => Idle);
    }
  }

  lemma {:induction false} UnusedAtMost(c: Config, ctl: seq<Ctl>)
    ensures Unused(c, ctl) <= CountOps(ctl) * c.maxop
  {
    if ctl != [] {
      var front := ctl[..|ctl| - 1];
      UnusedAtMost(c, front);
      assert (CountOps(front) + 1) * c.maxop == CountOps(front) * c.maxop + c.maxop;
    }
  }

  lemma {:induction false} SlackAtMostUnused(c: Config, ctl: seq<Ctl>, p: nat)
    requires p < |ctl|
    ensures Slack(c, ctl[p]) <= Unused(c, ctl)
  {
    var n := |ctl| - 1;
    if p < n {
      SlackAtMostUnused(c, ctl[..n], p);
      assert ctl[..n][p] == ctl[p];
    }
  }

  lemma {:induction false} NoOpsWhenZero(ctl: seq<Ctl>, p: nat)
    requires p < |ctl| && CountOps(ctl) == 0
    ensures !ctl[p].Op?
  {
    var n := |ctl| - 1;
    if p < n {
      NoOpsWhenZero(ctl[..n], p);
    }
  }

  lemma {:induction false} OpIsCounted(ctl: seq<Ctl>, p: nat)
    requires p < |ctl| && ctl[p].Op?
    ensures CountOps(ctl) >= 1
  {
    if CountOps(ctl) == 0 { NoOpsWhenZero(ctl, p); }
  }

  // ---- the invariant ----

  /** What holds of one operation in progress. */
  ghost predicate OpInv(c: Config, g: State, o: Ctl) {
    o.Op? ==>
      && |o.used| <= c.maxop
      && (forall x :: x in o.used ==> x in g.lh) && (o.used != {} ==> |o.used| <= Cap(c))
      && o.txn == g.txn && o.id < g.nextId
      && (o.passed.Some? ==> MayLog(c, o, o.passed.value) && (o.passed.value in o.used || |o.used| < Cap(c)) && 2 <= c.size)
      && (forall w :: w in g.writes && w.op == o.id ==> w.txn == g.txn)
  }

  ghost predicate WritesInv(g: State) {
    && (forall w :: w in g.writes ==> w.op < g.nextId && w.txn <= g.txn)
    && (forall v, w :: v in g.writes && w in g.writes && v.op == w.op ==> v.txn == w.txn)
  }

  /** Whoever sleeps in begin_op has a reason to, and is in no operation. */
  ghost predicate AsleepInv(c: Config, g: State) {
    && (g.asleep != {} ==> !CanBegin(c, g))
    && (forall p :: p in g.asleep ==> p < |g.ctl| && g.ctl[p].Idle?)
  }

  ghost predicate Inv(c: Config, g: State) {
    && |g.ctl| == c.nproc
    && g.outstanding == CountOps(g.ctl)
    && |g.lh| + Unused(c, g.ctl) <= c.logsize
    && Distinct(g.lh) && (g.lh != [] ==> 2 <= c.size)
    && (forall p :: 0 <= p < |g.ctl| ==> OpInv(c, g, g.ctl[p]))
    && (forall p, q :: 0 <= p < q < |g.ctl| && g.ctl[p].Op? && g.ctl[q].Op? ==> g.ctl[p].id != g.ctl[q].id)
    && (forall p, q :: 0 <= p < |g.ctl| && 0 <= q < |g.ctl| && g.ctl[p].Committing? && g.ctl[q].Committing? ==> p == q)
    && (forall p :: 0 <= p < |g.ctl| && g.ctl[p].Committing? ==> g.committing)
    && (g.committing ==> g.outstanding == 0 && exists p :: 0 <= p < |g.ctl| && g.ctl[p].Committing?)
    && WritesInv(g)
    && AsleepInv(c, g)
  }

  lemma InitInv(c: Config)
    ensures Inv(c, Init(c))
  {
    AllIdle(c, c.nproc);
  }

  /** begin_op's test leaves room for one more full budget. */
  lemma BeginFits(c: Config, g: State)
    requires g.outstanding == CountOps(g.ctl) && CanBegin(c, g)
    ensures |g.lh| + Unused(c, g.ctl) + c.maxop <= c.logsize
  {
    UnusedAtMost(c, g.ctl);
    assert (g.outstanding + 1) * c.maxop == g.outstanding * c.maxop + c.maxop;
  }

  lemma BeginInv(c: Config, g: State, g': State, p: nat)
    requires Inv(c, g) && Begin(c, g, g', p)
    ensures Inv(c, g')
  {
    var o := Op(g.nextId, g.txn, {}, None);
    CountOpsUpdate(g.ctl, p, o);
    UnusedUpdate(c, g.ctl, p, o);
    BeginFits(c, g);
    forall q | 0 <= q < |g.ctl| && q != p
      ensures g'.ctl[q] == g.ctl[q] && OpInv(c, g', g'.ctl[q])
    {
      assert OpInv(c, g, g.ctl[q]);
    }
  }

  lemma SleepInv(c: Config, g: State, g': State, p: nat)
    requires Inv(c, g) && Sleep(c, g, g', p)
    ensures Inv(c, g')
  {
    forall q | 0 <= q < |g.ctl|
      ensures OpInv(c, g', g'.ctl[q])
    {
      assert OpInv(c, g, g.ctl[q]);
    }
  }

  /** What an operation has logged is in the log. */
  lemma UsedInLog(c: Config, g: State, o: Ctl)
    requires OpInv(c, g, o) && o.Op?
    ensures |o.used| <= |g.lh|
  {
    SetOfSize(g.lh);
    SubsetSize(o.used, SetOf(g.lh));
  }

  lemma CheckInv(c: Config, g: State, g': State, p: nat, x: nat)
    requires Inv(c, g) && Check(c, g, g', p, x)
    ensures Inv(c, g')
  {
    var o := g.ctl[p].(passed := Some(x));
    CountOpsUpdate(g.ctl, p, o);
    UnusedUpdate(c, g.ctl, p, o);
    assert OpInv(c, g, g.ctl[p]);
    UsedInLog(c, g, g.ctl[p]);
    assert forall q :: 0 <= q < |g.ctl| && q != p ==> g'.ctl[q] == g.ctl[q] && OpInv(c, g, g.ctl[q]);
  }

  /** An operation that passed the guard still finds room once it holds the lock. */
  lemma AppendHasRoom(c: Config, g: State, p: nat)
    requires Inv(c, g) && p < |g.ctl| && g.ctl[p].Op? && g.ctl[p].passed.Some?
    ensures g.ctl[p].passed.value !in g.lh ==> |g.lh| < c.logsize
  {
    assert OpInv(c, g, g.ctl[p]);
    SlackAtMostUnused(c, g.ctl, p);
  }

  lemma AppendInv(c: Config, g: State, g': State, p: nat, x: nat, data: Block)
    requires Inv(c, g) && Append(c, g, g', p, x, data)
    ensures Inv(c, g')
  {
    AppendOps(c, g, g', p, x, data);
    hide OpInv;
    var o := g.ctl[p];
    var o' := o.(used := o.used + {x}, passed := None);
    CountOpsUpdate(g.ctl, p, o');
    UnusedUpdate(c, g.ctl, p, o');
    OpIsCounted(g.ctl, p);
    assert x in o.used ==> o.used + {x} == o.used;
  }

  lemma AppendOps(c: Config, g: State, g': State, p: nat, x: nat, data: Block)
    requires Inv(c, g) && Append(c, g, g', p, x, data)
    ensures forall q :: 0 <= q < |g'.ctl| ==> OpInv(c, g', g'.ctl[q])
    ensures x in g.ctl[p].used ==> x in g.lh
  {
    hide Unused, CountOps, AsleepInv, WritesInv, Distinct;
    assert OpInv(c, g, g.ctl[p]);
    assert x in g.ctl[p].used ==> g.ctl[p].used + {x} == g.ctl[p].used;
    assert OpInv(c, g', g'.ctl[p]);
    forall q | 0 <= q < |g.ctl| && q != p
      ensures OpInv(c, g', g'.ctl[q])
    {
      assert OpInv(c, g, g.ctl[q]);
    }
  }

  lemma EndInv(c: Config, g: State, g': State, p: nat)
    requires Inv(c, g) && End(c, g, g', p)
    ensures Inv(c, g')
  {
    var o := if g.outstanding - 1 == 0 then Committing else Idle;
    CountOpsUpdate(g.ctl, p, o);
    UnusedUpdate(c, g.ctl, p, o);
    assert g'.ctl[p] == o;
    forall q | 0 <= q < |g.ctl| && q != p
      ensures g'.ctl[q] == g.ctl[q] && OpInv(c, g', g'.ctl[q])
    {
      assert OpInv(c, g, g.ctl[q]);
    }
  }

  lemma ClearInv(c: Config, g: State, g': State, p: nat)
    requires Inv(c, g) && Clear(c, g, g', p)
    ensures Inv(c, g') && forall w :: w in g'.writes ==> w.txn < g'.txn
  {
    forall q | 0 <= q < |g.ctl|
      ensures OpInv(c, g', g'.ctl[q])
    {
      NoOpsWhenZero(g.ctl, q);
    }
  }

  lemma DoneInv(c: Config, g: State, g': State, p: nat)
    requires Inv(c, g) && Done(c, g, g', p)
    ensures Inv(c, g')
  {
    CountOpsUpdate(g.ctl, p, Idle);
    UnusedUpdate(c, g.ctl, p, Idle);
    forall q | 0 <= q < |g.ctl| && q != p
      ensures g'.ctl[q] == g.ctl[q] && OpInv(c, g', g'.ctl[q])
    {
      assert OpInv(c, g, g.ctl[q]);
    }
  }

  lemma StepInv(c: Config, g: State, g': State, s: Step)
    requires Inv(c, g) && StepBy(c, g, g', s)
    ensures Inv(c, g')
  {
    match s
    case BeginStep(p) => BeginInv(c, g, g', p);
    case SleepStep(p) => SleepInv(c, g, g', p);
    case CheckStep(p, x) => CheckInv(c, g, g', p, x);
    case AppendStep(p, x, d) => AppendInv(c, g, g', p, x, d);
    case EndStep(p) => EndInv(c, g, g', p);
    case ClearStep(p) => ClearInv(c, g, g', p);
    case DoneStep(p) => DoneInv(c, g, g', p);
  }

  lemma {:induction false} RunInv(c: Config, run: seq<State>, i: nat)
    requires IsRun(c, run) && i < |run|
    ensures Inv(c, run[i])
  {
    if i == 0 {
      InitInv(c);
    } else {
      RunInv(c, run, i - 1);
      assert Next(c, run[i - 1], run[i - 1 + 1]);
      var s: Step :| StepBy(c, run[i - 1], run[i], s);
      StepInv(c, run[i - 1], run[i], s);
    }
  }

  // ---- what every run guarantees ----

  /**
   Group commit. While a commit runs no operation is outstanding, so end_op's
   panic("log.committing") cannot fire; and the log_writes of one operation are
   all in one transaction, which is the current one while it is in progress.
   */
  lemma GroupCommitSafety(c: Config, run: seq<State>, i: nat)
    requires IsRun(c, run) && i < |run|
    ensures run[i].committing ==> run[i].outstanding == 0
    ensures forall p :: 0 <= p < |run[i].ctl| && run[i].ctl[p].Op? ==> !run[i].committing && run[i].outstanding >= 1
    ensures forall v, w :: v in run[i].writes && w in run[i].writes && v.op == w.op ==> v.txn == w.txn
    ensures forall p, w :: 0 <= p < |run[i].ctl| && run[i].ctl[p].Op? && w in run[i].writes && w.op == run[i].ctl[p].id
                           ==> w.txn == run[i].txn
  {
    RunInv(c, run, i);
    var g := run[i];
    forall p | 0 <= p < |g.ctl| && g.ctl[p].Op?
      ensures g.outstanding >= 1 && OpInv(c, g, g.ctl[p])
    {
      OpIsCounted(g.ctl, p);
    }
  }

  /**
   No wakeup of begin_op is lost. Whenever log.lock is free, a process asleep on
   the log waits for a commit to end or for room that is not there.
   */
  lemma SleepersHaveReason(c: Config, run: seq<State>, i: nat, p: nat)
    requires IsRun(c, run) && i < |run| && p in run[i].asleep
    ensures run[i].committing || |run[i].lh| + (run[i].outstanding + 1) * c.maxop > c.logsize
  {
    RunInv(c, run, i);
  }

  /**
   Log reservation. The logged blocks and the unused budget of every outstanding
   operation fit in the log together, so an operation with budget left passes
   log_write's guards at whatever moment it reads them.
   */
  lemma Reservation(c: Config, run: seq<State>, i: nat, p: nat)
    requires IsRun(c, run) && i < |run|
    requires p < |run[i].ctl| && run[i].ctl[p].Op? && |run[i].ctl[p].used| < c.maxop
    requires c.logsize <= c.size - 1
    ensures |run[i].lh| + Unused(c, run[i].ctl) <= c.logsize
    ensures !TooBig(c, run[i]) && run[i].outstanding >= 1
  {
    RunInv(c, run, i);
    SlackAtMostUnused(c, run[i].ctl, p);
    OpIsCounted(run[i].ctl, p);
  }

  /** No reachable state lets an operation with budget left panic in log_write. */
  ghost predicate NeverTooBig(c: Config) {
    forall g, p :: Reachable(c, g) && 0 <= p < |g.ctl| && g.ctl[p].Op? && |g.ctl[p].used| < c.maxop ==> !TooBig(c, g)
  }

  lemma ReachInit(c: Config)
    ensures Reachable(c, Init(c))
  {
    assert IsRun(c, [Init(c)]);
  }

  lemma ReachStep(c: Config, g: State, g': State, s: Step)
    requires Reachable(c, g) && StepBy(c, g, g', s)
    ensures Reachable(c, g')
  {
    var run :| IsRun(c, run) && run[|run| - 1] == g;
    var run' := run + [g'];
    forall j | 0 <= j < |run'| - 1
      ensures Next(c, run'[j], run'[j + 1])
    {
      if j < |run| - 1 {
        assert Next(c, run[j], run[j + 1]);
      }
    }
    assert IsRun(c, run') && run'[|run'| - 1] == g';
  }

  lemma {:induction false} SomeSlack(c: Config, ctl: seq<Ctl>) returns (p: nat)
    requires Unused(c, ctl) > 0
    ensures p < |ctl| && Slack(c, ctl[p]) > 0
  {
    var n := |ctl| - 1;
    if Slack(c, ctl[n]) > 0 {
      p := n;
    } else {
      p := SomeSlack(c, ctl[..n]);
    }
  }

  // ---- runs that fill the log ----

  /** The first i processes have begun an operation each. */
  function Begun(c: Config, i: nat): State {
    State([], i, false, seq(c.nproc, p requires 0 <= p < c.nproc => if p < i then Op(p, 0, {}, None) else Idle), {}, i, 0, [])
  }

  lemma BegunStep(c: Config, i: nat)
    requires i < c.nproc && (i + 1) * c.maxop <= c.logsize
    ensures Begin(c, Begun(c, i), Begun(c, i + 1), i)
  {
    var g, g' := Begun(c, i), Begun(c, i + 1);
    assert g'.ctl == g.ctl[i := Op(i, 0, {}, None)];
  }

  lemma BegunNone(c: Config)
    ensures Begun(c, 0) == Init(c) && Unused(c, Begun(c, 0).ctl) == 0
  {
    assert Begun(c, 0).ctl == Init(c).ctl;
    AllIdle(c, c.nproc);
  }

  lemma BegunInv(c: Config, h: State, g: State, p: nat)
    requires Inv(c, h) && Reachable(c, h) && Begin(c, h, g, p)
    ensures Inv(c, g) && Reachable(c, g)
  {
    hide Inv, Reachable;
    BeginInv(c, h, g, p);
    ReachStep(c, h, g, BeginStep(p));
  }

  lemma BegunUnused(c: Config, i: nat)
    requires i < c.nproc
    ensures Unused(c, Begun(c, i + 1).ctl) == Unused(c, Begun(c, i).ctl) + c.maxop
  {
    var o := Op(i, 0, {}, None);
    assert Begun(c, i + 1).ctl == Begun(c, i).ctl[i := o];
    UnusedUpdate(c, Begun(c, i).ctl, i, o);
  }

  /** k processes can begin at once when their budgets fill the log. */
  lemma {:induction false} BeginMany(c: Config, k: nat, i: nat)
    requires i <= k <= c.nproc && k * c.maxop <= c.logsize
    ensures Reachable(c, Begun(c, i)) && Inv(c, Begun(c, i))
    ensures Unused(c, Begun(c, i).ctl) == i * c.maxop
  {
    hide Inv, Reachable;
    if i == 0 {
      BegunNone(c);
      hide Begun, Init;
      InitInv(c);
      ReachInit(c);
    } else {
      var h, g := Begun(c, i - 1), Begun(c, i);
      BeginMany(c, k, i - 1);
      MulMonotone(i, k, c.maxop);
      BegunStep(c, i - 1);
      BegunUnused(c, i - 1);
      assert (i - 1) * c.maxop + c.maxop == i * c.maxop;
      BegunInv(c, h, g, i - 1);
    }
  }

  lemma MulMonotone(a: nat, b: nat, m: nat)
    requires a <= b
    ensures a * m <= b * m
  {
  }

  /** The home block behind the log area that is logged next. */
  function Fresh(c: Config, lh: seq<nat>): nat {
    c.start + c.size + |lh|
  }

  /** The blocks behind the log area have been logged one after the other. */
  predicate InOrder(c: Config, lh: seq<nat>) {
    forall i :: 0 <= i < |lh| ==> lh[i] == c.start + c.size + i
  }

  /** The disk has LOGSIZE home blocks behind the log area. */
  predicate Roomy(c: Config) {
    c.start + c.size + c.logsize <= c.disksize
  }

  /** Process p may log one block more, and nothing stops it. */
  predicate CanLog(c: Config, g: State, p: nat) {
    && p < |g.ctl| && g.ctl[p].Op? && g.ctl[p].passed == None && |g.ctl[p].used| < c.maxop
    && !TooBig(c, g)
  }

  /** Process p has passed the guards for block x. */
  function Guarded(g: State, p: nat, x: nat): State
    requires p < |g.ctl| && g.ctl[p].Op?
  {
    g.(ctl := g.ctl[p := g.ctl[p].(passed := Some(x))])
  }

  /** Process p has logged the next block, with its contents in v. */
  function Logged(c: Config, g: State, p: nat, v: Disk): State
    requires p < |g.ctl| && g.ctl[p].Op? && Fresh(c, g.lh) < |v|
  {
    var x, o := Fresh(c, g.lh), g.ctl[p];
    g.(lh := g.lh + [x], ctl := g.ctl[p := o.(used := o.used + {x}, passed := None)],
       writes := g.writes + [Write(o.id, x, v[x], g.txn)])
  }

  lemma NotYetUsed(c: Config, g: State, p: nat, x: nat)
    requires Inv(c, g) && p < |g.ctl| && g.ctl[p].Op? && InOrder(c, g.lh) && x == Fresh(c, g.lh)
    ensures x !in g.ctl[p].used && g.outstanding >= 1
  {
    OpIsCounted(g.ctl, p);
    assert OpInv(c, g, g.ctl[p]);
  }

  lemma TwoSteps(c: Config, g: State, g1: State, g2: State, p: nat, x: nat, data: Block)
    requires Inv(c, g) && Check(c, g, g1, p, x) && Append(c, g1, g2, p, x, data)
    ensures Inv(c, g1) && Inv(c, g2) && (Reachable(c, g) ==> Reachable(c, g2))
    ensures StepBy(c, g, g1, CheckStep(p, x)) && StepBy(c, g1, g2, AppendStep(p, x, data))
  {
    hide Inv, Reachable, Check, Append;
    CheckInv(c, g, g1, p, x);
    AppendInv(c, g1, g2, p, x, data);
    if Reachable(c, g) {
      ReachStep(c, g, g1, CheckStep(p, x));
      ReachStep(c, g1, g2, AppendStep(p, x, data));
    }
  }

  lemma FreshSteps(c: Config, g: State, p: nat, v: Disk)
    requires InOrder(c, g.lh) && CanLog(c, g, p) && Roomy(c) && |v| == c.disksize && g.outstanding >= 1
    ensures Check(c, g, Guarded(g, p, Fresh(c, g.lh)), p, Fresh(c, g.lh))
    ensures Append(c, Guarded(g, p, Fresh(c, g.lh)), Logged(c, g, p, v), p, Fresh(c, g.lh), v[Fresh(c, g.lh)])
    ensures InOrder(c, Logged(c, g, p, v).lh)
  {
    var x, g1, g2 := Fresh(c, g.lh), Guarded(g, p, Fresh(c, g.lh)), Logged(c, g, p, v);
    assert g2.ctl == g1.ctl[p := g2.ctl[p]];
  }

  lemma FreshUnused(c: Config, g: State, p: nat, v: Disk)
    requires Inv(c, g) && CanLog(c, g, p) && Fresh(c, g.lh) < |v| && Fresh(c, g.lh) !in g.ctl[p].used
    ensures |Logged(c, g, p, v).ctl[p].used| == |g.ctl[p].used| + 1
    ensures Unused(c, Logged(c, g, p, v).ctl) + 1 == Unused(c, g.ctl)
  {
    UnusedUpdate(c, g.ctl, p, Logged(c, g, p, v).ctl[p]);
  }

  /** The two steps of one log_write of a fresh block. */
  lemma LogFresh(c: Config, g: State, p: nat, v: Disk)
    requires Inv(c, g) && InOrder(c, g.lh) && CanLog(c, g, p) && Roomy(c) && |v| == c.disksize
    ensures StepBy(c, g, Guarded(g, p, Fresh(c, g.lh)), CheckStep(p, Fresh(c, g.lh)))
    ensures StepBy(c, Guarded(g, p, Fresh(c, g.lh)), Logged(c, g, p, v), AppendStep(p, Fresh(c, g.lh), v[Fresh(c, g.lh)]))
    ensures Inv(c, Guarded(g, p, Fresh(c, g.lh))) && Inv(c, Logged(c, g, p, v)) && InOrder(c, Logged(c, g, p, v).lh)
    ensures Reachable(c, g) ==> Reachable(c, Logged(c, g, p, v))
    ensures |Logged(c, g, p, v).ctl[p].used| == |g.ctl[p].used| + 1
    ensures Unused(c, Logged(c, g, p, v).ctl) + 1 == Unused(c, g.ctl)
  {
    var x, g1, g2 := Fresh(c, g.lh), Guarded(g, p, Fresh(c, g.lh)), Logged(c, g, p, v);
    hide Inv, OpInv, Reachable, StepBy, Unused, Check, Append, InOrder, Roomy, Guarded, Logged;
    NotYetUsed(c, g, p, x);
    FreshSteps(c, g, p, v);
    FreshUnused(c, g, p, v);
    TwoSteps(c, g, g1, g2, p, x, v[x]);
  }

  /** The processes of ps, in turn, log one fresh block each. */
  predicate Plays(c: Config, g: State, ps: seq<nat>, v: Disk)
    decreases |ps|
  {
    ps == [] || (CanLog(c, g, ps[0]) && Fresh(c, g.lh) < |v| && Plays(c, Logged(c, g, ps[0], v), ps[1..], v))
  }

  function Played(c: Config, g: State, ps: seq<nat>, v: Disk): State
    requires Plays(c, g, ps, v)
    decreases |ps|
  {
    if ps == [] then g else Played(c, Logged(c, g, ps[0], v), ps[1..], v)
  }

  lemma {:induction false} PlayedKeeps(c: Config, g: State, ps: seq<nat>, v: Disk)
    requires Plays(c, g, ps, v) && Inv(c, g) && InOrder(c, g.lh) && Roomy(c) && |v| == c.disksize
    ensures var h := Played(c, g, ps, v);
            && Inv(c, h) && InOrder(c, h.lh) && |h.lh| == |g.lh| + |ps| && (Reachable(c, g) ==> Reachable(c, h))
            && |h.ctl| == |g.ctl| && (forall q :: 0 <= q < |g.ctl| && q !in ps ==> h.ctl[q] == g.ctl[q])
            && (forall q :: 0 <= q < |g.ctl| && g.ctl[q].Op? ==> h.ctl[q].Op? && h.ctl[q].id == g.ctl[q].id)
            && (forall q :: 0 <= q < |g.ctl| && !g.ctl[q].Op? ==> h.ctl[q] == g.ctl[q])
            && (forall q :: 0 <= q < |g.ctl| && g.ctl[q].Op? && g.ctl[q].passed == None ==> h.ctl[q].passed == None)
            && Unused(c, h.ctl) + |ps| == Unused(c, g.ctl)
            && h.outstanding == g.outstanding && h.committing == g.committing
    decreases |ps|
  {
    hide Inv, Reachable, Unused, CanLog;
    if ps != [] {
      LogFresh(c, g, ps[0], v);
      PlayedKeeps(c, Logged(c, g, ps[0], v), ps[1..], v);
    }
  }

  predicate Unspent(o: Ctl) {
    o.Op? && o.used == {} && o.passed == None
  }

  /** The budget of n operations. */
  function Budget(c: Config, n: nat): nat {
    if n == 0 then 0 else c.maxop + Budget(c, n - 1)
  }

  lemma {:induction false} BudgetIs(c: Config, n: nat)
    ensures Budget(c, n) == n * c.maxop
  {
    if n != 0 {
      BudgetIs(c, n - 1);
      assert n * c.maxop == (n - 1) * c.maxop + c.maxop;
    }
  }

  /** Operations j to k - 1, of which all but j are untouched, can log m blocks between them. */
  lemma {:induction false} Script(c: Config, g: State, j: nat, k: nat, m: nat, v: Disk) returns (ps: seq<nat>)
    requires Inv(c, g) && InOrder(c, g.lh) && Roomy(c) && |v| == c.disksize && j < k <= |g.ctl|
    requires g.ctl[j].Op? && g.ctl[j].passed == None && forall p :: j < p < k ==> Unspent(g.ctl[p])
    requires |g.ctl[j].used| <= c.maxop && m <= c.maxop - |g.ctl[j].used| + Budget(c, k - j - 1)
    requires |g.lh| + m <= c.size - 1 && |g.lh| + m <= c.logsize
    ensures |ps| == m && Plays(c, g, ps, v) && forall p :: p in ps ==> j <= p < k
    decreases m, k - j
  {
    hide Inv, Reachable;
    if m == 0 {
      ps := [];
    } else if |g.ctl[j].used| < c.maxop {
      LogFresh(c, g, j, v);
      var rest := Script(c, Logged(c, g, j, v), j, k, m - 1, v);
      ps := [j] + rest;
      assert ps[1..] == rest;
    } else {
      ps := Script(c, g, j + 1, k, m, v);
    }
  }

  /** k operations together can log any n blocks that the guards let through. */
  lemma FillLog(c: Config, k: nat, n: nat) returns (g: State)
    requires 0 < k <= c.nproc && c.logsize == k * c.maxop && n <= c.logsize && (n == 0 || n <= c.size - 1) && Roomy(c)
    ensures Reachable(c, g) && Inv(c, g) && |g.lh| == n && g.outstanding == k && Unused(c, g.ctl) == c.logsize - n
  {
    hide Inv, Reachable;
    BeginMany(c, k, k);
    if n == 0 {
      g := Begun(c, k);
    } else {
      var h, v := Begun(c, k), seq(c.disksize, _ => Zero());
      BudgetIs(c, k);
      var ps := Script(c, h, 0, k, n, v);
      PlayedKeeps(c, h, ps, v);
      g := Played(c, h, ps, v);
    }
  }

  /**
   Exactly when the reservation protects log_write. LOGSIZE is a whole number k
   of operation budgets (param.h has k = 3); then no operation with budget left
   can reach panic("too big a transaction") if and only if LOGSIZE <= log.size - 1.
   */
  lemma ReservationExact(c: Config, k: nat)
    requires 0 < c.maxop && 0 < k <= c.nproc && c.logsize == k * c.maxop && Roomy(c)
    ensures NeverTooBig(c) <==> c.logsize <= c.size - 1
  {
    if c.logsize <= c.size - 1 {
      forall g, p | Reachable(c, g) && 0 <= p < |g.ctl| && g.ctl[p].Op? && |g.ctl[p].used| < c.maxop
        ensures !TooBig(c, g)
      {
        var run :| IsRun(c, run) && run[|run| - 1] == g;
        Reservation(c, run, |run| - 1, p);
      }
    } else {
      var n: nat := if c.size == 0 then 0 else c.size - 1;
      var g := FillLog(c, k, n);
      assert k * c.maxop >= c.maxop by { MulMonotone(1, k, c.maxop); }
      var p := SomeSlack(c, g.ctl);
      assert Reachable(c, g) && g.ctl[p].Op? && TooBig(c, g);
    }
  }

  // ---- two guards read at once ----

  /** The log never outgrows its area on disk. */
  ghost predicate NeverOverflows(c: Config) {
    forall g :: Reachable(c, g) ==> |g.lh| <= c.size - 1
  }

  /** Two operations or more, whose budgets fill a log larger than its area. */
  predicate Crowded(c: Config, k: nat) {
    && 0 < c.maxop && 2 <= k <= c.nproc && c.logsize == k * c.maxop && Roomy(c)
    && 2 <= c.size <= c.logsize
  }

  /** The block that is logged when the area is full. */
  function LastBlock(c: Config): nat
    requires 1 <= c.size
  {
    c.start + 2 * c.size - 1
  }

  /**
   Who logs what when the log overflows. Operation 0 logs what the others cannot
   and passes the guard for one block more; the others then fill the area.
   */
  predicate Overfills(c: Config, k: nat, first: seq<nat>, rest: seq<nat>, v: Disk)
    requires 1 <= c.size
  {
    && (forall p :: p in first ==> p == 0) && (forall p :: p in rest ==> 1 <= p < k)
    && |first| + |rest| == c.size - 1 && |first| < c.maxop && |first| < c.size - 1
    && Plays(c, Begun(c, k), first, v)
    && var g := Played(c, Begun(c, k), first, v);
    CanLog(c, g, 0) && Plays(c, Guarded(g, 0, LastBlock(c)), rest, v)
  }

  lemma FirstScript(c: Config, k: nat, v: Disk) returns (first: seq<nat>)
    requires Crowded(c, k) && |v| == c.disksize
    ensures Plays(c, Begun(c, k), first, v) && (forall p :: p in first ==> p == 0)
    ensures |first| < c.maxop && |first| < c.size - 1 && c.size - 1 <= |first| + Budget(c, k - 1)
  {
    BeginMany(c, k, k);
    hide Inv, Reachable;
    BudgetIs(c, k);
    var others := Budget(c, k - 1);
    assert others >= c.maxop;
    first := Script(c, Begun(c, k), 0, 1, if others >= c.size - 1 then 0 else c.size - 1 - others, v);
  }

  /** Only process p plays, and its budget shrinks with every block. */
  lemma {:induction false} PlayedAlone(c: Config, g: State, ps: seq<nat>, v: Disk, p: nat)
    requires Plays(c, g, ps, v) && Inv(c, g) && InOrder(c, g.lh) && Roomy(c) && |v| == c.disksize
    requires (forall q :: q in ps ==> q == p) && p < |g.ctl| && g.ctl[p].Op?
    ensures p < |Played(c, g, ps, v).ctl| && Played(c, g, ps, v).ctl[p].Op?
    ensures |Played(c, g, ps, v).ctl[p].used| == |g.ctl[p].used| + |ps| && g.ctl[p].used <= Played(c, g, ps, v).ctl[p].used
    ensures forall x :: x in Played(c, g, ps, v).lh ==> x in g.lh || x in Played(c, g, ps, v).ctl[p].used
    decreases |ps|
  {
    hide Inv, Reachable;
    if ps != [] {
      assert ps[0] in ps && forall q :: q in ps[1..] ==> q in ps;
      LogFresh(c, g, ps[0], v);
      PlayedAlone(c, Logged(c, g, ps[0], v), ps[1..], v, p);
    }
  }

  lemma PassGuard(c: Config, g: State, g': State, p: nat, x: nat)
    requires Inv(c, g) && Reachable(c, g) && Check(c, g, g', p, x)
    ensures Inv(c, g') && Reachable(c, g')
  {
    hide Inv, Reachable;
    CheckInv(c, g, g', p, x);
    ReachStep(c, g, g', CheckStep(p, x));
  }

  lemma BegunOps(c: Config, k: nat)
    requires k <= c.nproc
    ensures var g := Begun(c, k);
            && g.lh == [] && |g.ctl| == c.nproc && g.outstanding == k && (forall p :: 0 <= p < k ==> Unspent(g.ctl[p]))
  {
  }

  /** The guard of operation 0 is read while there is room. */
  lemma HoldGuard(c: Config, k: nat, first: seq<nat>, v: Disk)
    requires Crowded(c, k) && |v| == c.disksize && Plays(c, Begun(c, k), first, v)
    requires (forall p :: p in first ==> p == 0) && |first| < c.maxop && |first| < c.size - 1
    ensures var g := Played(c, Begun(c, k), first, v);
            && CanLog(c, g, 0) && Check(c, g, Guarded(g, 0, LastBlock(c)), 0, LastBlock(c))
            && Inv(c, Guarded(g, 0, LastBlock(c))) && Reachable(c, Guarded(g, 0, LastBlock(c)))
            && InOrder(c, g.lh) && |g.lh| == |first| && |g.ctl| == c.nproc
            && forall p :: 1 <= p < k ==> Unspent(g.ctl[p])
  {
    BeginMany(c, k, k);
    BegunOps(c, k);
    hide Inv, Reachable, Begun, Played, Plays, Unused;
    PlayedKeeps(c, Begun(c, k), first, v);
    PlayedAlone(c, Begun(c, k), first, v, 0);
    var g, x := Played(c, Begun(c, k), first, v), LastBlock(c);
    PassGuard(c, g, Guarded(g, 0, x), 0, x);
  }

  lemma Scripts(c: Config, k: nat, v: Disk) returns (first: seq<nat>, rest: seq<nat>)
    requires Crowded(c, k) && |v| == c.disksize
    ensures Overfills(c, k, first, rest, v)
  {
    hide Inv, Reachable, Plays, Played;
    first := FirstScript(c, k, v);
    HoldGuard(c, k, first, v);
    var g := Guarded(Played(c, Begun(c, k), first, v), 0, LastBlock(c));
    assert c.maxop + Budget(c, k - 2) == Budget(c, k - 1);
    rest := Script(c, g, 1, k, c.size - 1 - |first|, v);
  }

  /** The log as operation 0 finds it with its guard passed, and as it leaves it. */
  function Brimful(c: Config, k: nat, first: seq<nat>, rest: seq<nat>, v: Disk): State
    requires 1 <= c.size && Overfills(c, k, first, rest, v)
  {
    Played(c, Guarded(Played(c, Begun(c, k), first, v), 0, LastBlock(c)), rest, v)
  }

  lemma BrimfulIs(c: Config, k: nat, first: seq<nat>, rest: seq<nat>, v: Disk)
    requires Crowded(c, k) && |v| == c.disksize && Overfills(c, k, first, rest, v)
    ensures var g := Brimful(c, k, first, rest, v);
            && Inv(c, g) && Reachable(c, g) && InOrder(c, g.lh) && |g.lh| == c.size - 1
            && |g.ctl| == c.nproc && g.ctl[0].Op? && g.ctl[0].passed == Some(LastBlock(c)) == Some(Fresh(c, g.lh))
  {
    hide Inv, Reachable, Plays, Played, Unused, Begun;
    HoldGuard(c, k, first, v);
    var g := Guarded(Played(c, Begun(c, k), first, v), 0, LastBlock(c));
    PlayedKeeps(c, g, rest, v);
    assert 0 !in rest && g.ctl[0].passed == Some(LastBlock(c));
  }

  /** Operation 0 reads the guard before the last block is taken and appends after it. */
  lemma OverflowHappens(c: Config, k: nat) returns (g: State)
    requires Crowded(c, k)
    ensures Reachable(c, g) && |g.lh| == c.size && forall x :: x in g.lh ==> Home(c, x)
  {
    hide Inv, Reachable, Overfills, Brimful;
    var v := seq(c.disksize, _ => Zero());
    var first, rest := Scripts(c, k, v);
    BrimfulIs(c, k, first, rest, v);
    var h, x := Brimful(c, k, first, rest, v), LastBlock(c);
    g := Logged(c, h, 0, v);
    ReachStep(c, h, g, AppendStep(0, x, v[x]));
  }

  /**
   Exactly when the log stays in its area. log_write reads its guard before it
   takes log.lock, so with room for two operations or more the reservation has to
   be the smaller bound: the guard alone does not keep the log inside.
   */
  lemma OverflowExact(c: Config, k: nat)
    requires 0 < c.maxop && 2 <= k <= c.nproc && c.logsize == k * c.maxop && 2 <= c.size && Roomy(c)
    ensures NeverOverflows(c) <==> c.logsize <= c.size - 1
  {
    if c.logsize <= c.size - 1 {
      forall g | Reachable(c, g)
        ensures |g.lh| <= c.size - 1
      {
        var run :| IsRun(c, run) && run[|run| - 1] == g;
        RunInv(c, run, |run| - 1);
      }
    } else {
      var g := OverflowHappens(c, k);
    }
  }

  /** With the repository's constants a run logs as many blocks as the whole area has, its header included. */
  lemma RepositoryLogCanOverflow() returns (g: State)
    ensures Reachable(REPOSITORY, g) && |g.lh| == REPOSITORY.size && forall x :: x in g.lh ==> Home(REPOSITORY, x)
    ensures !NeverOverflows(REPOSITORY)
  {
    g := OverflowHappens(REPOSITORY, 3);
  }

  /** mkfs gives the log LOGSIZE blocks, header included: one too few. */
  lemma RepositoryLogIsTooSmall()
    ensures !NeverTooBig(REPOSITORY)
  {
    ReservationExact(REPOSITORY, 3);
  }

  /** A full log stops a process that logs one of its own blocks again, which would need no room. */
  lemma AbsorbedWriteCanPanic(c: Config, k: nat) returns (g: State, p: nat, x: nat)
    requires 0 < c.maxop && 0 < k <= c.nproc && c.logsize == k * c.maxop && c.logsize <= c.size - 1 && Roomy(c)
    ensures Reachable(c, g) && p < |g.ctl| && g.ctl[p].Op? && |g.ctl[p].used| == c.maxop && x in g.ctl[p].used
    ensures MayLog(c, g.ctl[p], x) && Absorb(g.lh, x) == g.lh && TooBig(c, g)
  {
    g := FillLog(c, k, c.logsize);
    p := SomeOp(g.ctl);
    assert OpInv(c, g, g.ctl[p]);
    SlackAtMostUnused(c, g.ctl, p);
    x :| x in g.ctl[p].used;
  }

  /** log_write's guard stops no operation that has logged m blocks. */
  ghost predicate NeverStops(c: Config, m: nat) {
    forall g, p :: Reachable(c, g) && 0 <= p < |g.ctl| && g.ctl[p].Op? && |g.ctl[p].used| == m ==> !TooBig(c, g)
  }

  /** m blocks are more than the guard lets through, or leave more budget than fits behind a log at the guard. */
  predicate Spared(c: Config, m: nat) {
    m > Cap(c) || Cap(c) + c.maxop - m > c.logsize
  }

  lemma StoppedIsNotSpared(c: Config, g: State, p: nat)
    requires Inv(c, g) && 2 <= c.size && p < |g.ctl| && g.ctl[p].Op? && TooBig(c, g)
    ensures !Spared(c, |g.ctl[p].used|)
  {
    assert OpInv(c, g, g.ctl[p]);
    SlackAtMostUnused(c, g.ctl, p);
  }

  /** Operations 0 to k - 1 fill the log to where the guard strikes; operation 0 logs m blocks, the first ones. */
  predicate Stops(c: Config, k: nat, m: nat, first: seq<nat>, rest: seq<nat>, v: Disk) {
    && |first| == m && (forall p :: p in first ==> p == 0) && Plays(c, Begun(c, k), first, v)
    && |first| + |rest| == Cap(c) && (forall p :: p in rest ==> 1 <= p < k)
    && Plays(c, Played(c, Begun(c, k), first, v), rest, v)
  }

  /** LOGSIZE is k budgets, and the disk has as many blocks behind the log area. */
  predicate Whole(c: Config, k: nat) {
    0 < c.maxop && 0 < k <= c.nproc && c.logsize == k * c.maxop && 2 <= c.size && Roomy(c)
  }

  lemma StopScripts(c: Config, k: nat, m: nat, v: Disk) returns (first: seq<nat>, rest: seq<nat>)
    requires Whole(c, k) && |v| == c.disksize && m <= c.maxop && !Spared(c, m)
    ensures Stops(c, k, m, first, rest, v)
  {
    hide Inv, Reachable, Plays, Played, Unused;
    BeginMany(c, k, k);
    BegunOps(c, k);
    BudgetIs(c, k);
    BudgetIs(c, k - 1);
    var g := Begun(c, k);
    hide Begun;
    first := Script(c, g, 0, 1, m, v);
    assert forall p :: p in first ==> p == 0;
    PlayedKeeps(c, g, first, v);
    var h := Played(c, g, first, v);
    if k == 1 {
      rest := [];
      NoneLeft(c, h, v);
    } else {
      assert forall p :: 1 <= p < k ==> Unspent(h.ctl[p]);
      rest := Script(c, h, 1, k, Cap(c) - m, v);
    }
  }

  lemma NoneLeft(c: Config, g: State, v: Disk)
    ensures Plays(c, g, [], v)
  {
  }

  /** The log where the guard strikes, with m blocks of operation 0. */
  function Stopped(c: Config, k: nat, m: nat, first: seq<nat>, rest: seq<nat>, v: Disk): State
    requires Stops(c, k, m, first, rest, v)
  {
    Played(c, Played(c, Begun(c, k), first, v), rest, v)
  }

  lemma StoppedIs(c: Config, k: nat, m: nat, first: seq<nat>, rest: seq<nat>, v: Disk)
    requires Whole(c, k) && |v| == c.disksize && Stops(c, k, m, first, rest, v)
    ensures var g := Stopped(c, k, m, first, rest, v);
            && Inv(c, g) && Reachable(c, g) && InOrder(c, g.lh) && |g.lh| == Cap(c) && TooBig(c, g) && |g.ctl| == c.nproc
            && g.ctl[0].Op? && g.ctl[0].passed == None && |g.ctl[0].used| == m && (m > 0 ==> g.lh[0] in g.ctl[0].used)
  {
    hide Inv, Reachable, Plays, Played, Unused, Begun;
    BeginMany(c, k, k);
    BegunOps(c, k);
    var b := Begun(c, k);
    PlayedKeeps(c, b, first, v);
    PlayedAlone(c, b, first, v, 0);
    var h := Played(c, b, first, v);
    assert m > 0 ==> h.lh[0] in h.lh;
    PlayedKeeps(c, h, rest, v);
  }

  /**
   Exactly whom the guard of the log record spares: an operation with so much budget
   left that the log cannot get as far as the guard, or with more blocks than that. In a
   log area of the right size these are all with budget left; one that has used it all
   may be stopped, although it may log its blocks again.
   */
  lemma GuardExact(c: Config, k: nat, m: nat)
    requires Whole(c, k) && m <= c.maxop
    ensures NeverStops(c, m) <==> Spared(c, m)
    ensures c.logsize <= c.size - 1 ==> (Spared(c, m) <==> m < c.maxop)
  {
    hide Inv, Reachable;
    if Spared(c, m) {
      forall g, p | Reachable(c, g) && 0 <= p < |g.ctl| && g.ctl[p].Op? && |g.ctl[p].used| == m
        ensures !TooBig(c, g)
      {
        ReachableInv(c, g);
        if TooBig(c, g) { StoppedIsNotSpared(c, g, p); }
      }
    } else {
      var v := seq(c.disksize, _ => Zero());
      var first, rest := StopScripts(c, k, m, v);
      StoppedIs(c, k, m, first, rest, v);
    }
    MulMonotone(1, k, c.maxop);
  }

  lemma ReachableInv(c: Config, g: State)
    requires Reachable(c, g)
    ensures Inv(c, g)
  {
    hide Inv;
    var run :| IsRun(c, run) && run[|run| - 1] == g;
    RunInv(c, run, |run| - 1);
  }

  lemma {:induction false} SomeOp(ctl: seq<Ctl>) returns (p: nat)
    requires CountOps(ctl) > 0
    ensures p < |ctl| && ctl[p].Op?
  {
    var n := |ctl| - 1;
    if ctl[n].Op? { p := n; } else { p := SomeOp(ctl[..n]); }
  }
}
