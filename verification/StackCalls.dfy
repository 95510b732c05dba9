/**
 Runs of the storage stack, put together from its steps: single steps of commit and
 recovery, and whole calls of bread and brelse while no other process is inside one.
 */
module StackCalls {
  import opened Options
  import opened Params
  import opened LogDisk
  import opened CrashLog
  import opened Storage
  import opened CacheCalls
  import B = SharedCache
  import C = BufferCache

  // ---- runs and their parts ----

  ghost predicate Reach(c: Config, s: State) {
    exists run, steps :: IsRun(c, run, steps) && |run| == |steps| + 1 && run[|steps|] == s
  }

  /** A part of a run, without a crash. */
  ghost predicate IsPath(c: Config, run: seq<State>, steps: seq<Step>) {
    && |run| == |steps| + 1
    && forall i :: 0 <= i < |steps| ==> steps[i] != Crash && StepBy(c, run[i], run[i + 1], steps[i])
  }

  ghost predicate Leads(c: Config, s: State, s': State) {
    exists run, steps :: IsPath(c, run, steps) && |run| == |steps| + 1 && run[0] == s && run[|steps|] == s'
  }

  lemma RunStep(c: Config, run: seq<State>, steps: seq<Step>, s': State, a: Step)
    requires IsRun(c, run, steps) && StepBy(c, run[|steps|], s', a)
    ensures IsRun(c, run + [s'], steps + [a])
  {
    hide StepBy, Boot, WfDisk;
    var run', steps' := run + [s'], steps + [a];
    var d :| WfDisk(c, d) && run[0] == Boot(c, d);
    assert run'[0] == Boot(c, d);
    forall i | 0 <= i < |steps'|
      ensures StepBy(c, run'[i], run'[i + 1], steps'[i])
    {
      if i < |steps| { assert StepBy(c, run[i], run[i + 1], steps[i]); }
    }
  }

  lemma ReachStep(c: Config, s: State, s': State, a: Step)
    requires Reach(c, s) && StepBy(c, s, s', a)
    ensures Reach(c, s')
  {
    hide StepBy, IsRun;
    var run, steps :| IsRun(c, run, steps) && |run| == |steps| + 1 && run[|steps|] == s;
    RunStep(c, run, steps, s', a);
    assert (run + [s'])[|steps + [a]|] == s';
  }

  lemma PathsJoin(c: Config, run: seq<State>, steps: seq<Step>, run': seq<State>, steps': seq<Step>)
    requires IsPath(c, run, steps) && IsPath(c, run', steps') && run[|steps|] == run'[0]
    ensures IsPath(c, run[..|steps|] + run', steps + steps')
  {
    hide StepBy;
    var r, t := run[..|steps|] + run', steps + steps';
    forall i | 0 <= i < |t|
      ensures t[i] != Crash && StepBy(c, r[i], r[i + 1], t[i])
    {
      if i < |steps| {
        assert StepBy(c, run[i], run[i + 1], steps[i]);
        assert r[i] == run[i] && r[i + 1] == run[i + 1];
      } else {
        var k := i - |steps|;
        assert StepBy(c, run'[k], run'[k + 1], steps'[k]);
        assert r[i] == run'[k] && r[i + 1] == run'[k + 1];
      }
    }
  }

  lemma LeadsTwice(c: Config, s: State, t: State, u: State)
    requires Leads(c, s, t) && Leads(c, t, u)
    ensures Leads(c, s, u)
  {
    hide IsPath;
    var run, steps :| IsPath(c, run, steps) && |run| == |steps| + 1 && run[0] == s && run[|steps|] == t;
    var run', steps' :| IsPath(c, run', steps') && |run'| == |steps'| + 1 && run'[0] == t && run'[|steps'|] == u;
    PathsJoin(c, run, steps, run', steps');
    var r := run[..|steps|] + run';
    assert r[0] == s && r[|steps + steps'|] == u;
  }

  lemma LeadsNowhere(c: Config, s: State)
    ensures Leads(c, s, s)
  {
    assert IsPath(c, [s], []);
  }

  /** One step. */
  lemma Takes(c: Config, s: State, s': State, a: Step)
    requires StepBy(c, s, s', a) && a != Crash
    ensures Leads(c, s, s') && (Reach(c, s) ==> Reach(c, s'))
  {
    hide StepBy, Reach;
    assert IsPath(c, [s, s'], [a]);
    assert [s, s'][|[a]|] == s';
    if Reach(c, s) { ReachStep(c, s, s', a); }
  }

  /** And one more. */
  lemma TakesAlso(c: Config, o: State, s: State, s': State, a: Step)
    requires Leads(c, o, s) && StepBy(c, s, s', a) && a != Crash
    ensures Leads(c, o, s') && (Reach(c, s) ==> Reach(c, s'))
  {
    hide StepBy, Reach, Leads;
    Takes(c, s, s', a);
    LeadsTwice(c, o, s, s');
  }

  lemma TakesTurn(c: Config, s: State, s': State)
    requires TurnStep(c, s, s')
    ensures Leads(c, s, s') && (Reach(c, s) ==> Reach(c, s'))
  {
    hide Reach, Leads, TurnStep;
    Takes(c, s, s', Turn);
  }

  lemma TakesHeader(c: Config, s: State, s': State, b: nat)
    requires HeaderStep(c, s, s', b)
    ensures Leads(c, s, s') && (Reach(c, s) ==> Reach(c, s'))
  {
    hide Reach, Leads, HeaderStep;
    Takes(c, s, s', UseHeader(b));
  }

  lemma TakesCopy(c: Config, s: State, s': State, src: nat, dst: nat)
    requires CopyStep(c, s, s', src, dst)
    ensures Leads(c, s, s') && (Reach(c, s) ==> Reach(c, s'))
  {
    hide Reach, Leads, CopyStep;
    Takes(c, s, s', CopyBlock(src, dst));
  }

  lemma TakesWrite(c: Config, s: State, s': State, b: nat)
    requires WriteStep(c, s, s', b)
    ensures Leads(c, s, s') && (Reach(c, s) ==> Reach(c, s'))
  {
    hide Reach, Leads, WriteStep;
    Takes(c, s, s', WriteBlock(b));
  }

  lemma TakesAsk(c: Config, s: State, s': State, b: nat)
    requires AskStep(c, s, s', b)
    ensures Leads(c, s, s') && (Reach(c, s) ==> Reach(c, s'))
  {
    hide Reach, Leads, AskStep;
    Takes(c, s, s', Ask(b));
  }

  lemma TakesGive(c: Config, s: State, s': State, b: nat)
    requires GiveStep(c, s, s', b)
    ensures Leads(c, s, s') && (Reach(c, s) ==> Reach(c, s'))
  {
    hide Reach, Leads, GiveStep;
    Takes(c, s, s', Give(b));
  }

  lemma TakesInside(c: Config, o: State, s: State, s': State, bs: B.Step)
    requires Leads(c, o, s) && InsideStep(s, s', bs)
    ensures Leads(c, o, s') && (Reach(c, s) ==> Reach(c, s'))
  {
    hide Reach, Leads, InsideStep;
    TakesAlso(c, o, s, s', Inside(bs));
  }

  lemma ReachInv(c: Config, s: State)
    requires Reach(c, s) && Contained(c)
    ensures Inv(c, s)
  {
    hide StepBy, Boot, Inv;
    var run, steps :| IsRun(c, run, steps) && run[|steps|] == s;
    RunInv(c, run, steps, |steps|);
  }

  lemma PinnedIsCached(m: B.Bio, x: nat)
    requires B.Inv(m) && x in B.Abs(m).pinned
    ensures C.Fetchable(m.cache.bufs, x)
  {
    PinnedIsDirty(m, x);
  }

  lemma SomeEligible(m: B.Bio, x: nat)
    requires exists b :: 0 <= b < |m.cache.bufs| && C.Eligible(m.cache.bufs, b)
    ensures C.Fetchable(m.cache.bufs, x)
  {
  }

  // ---- calls of bread and brelse in the stack ----

  lemma ClientBread(c: Config, s: State, p: nat, x: nat) returns (s': State, b: nat)
    requires Reach(c, s) && B.Inv(s.bio) && Settled(s.bio) && Free(s, p)
    requires x < |s.bio.disk| && x !in B.Abs(s.bio).locked && C.Fetchable(s.bio.cache.bufs, x)
    ensures Reach(c, s') && s'.log == s.log && Fetched(s.bio, s'.bio, p, b, x)
  {
    hide B.Inv, B.Abs, Reach, B.StepBy, Fetched, C.Fetchable;
    var m1, m2, m3, b' := Bread(s.bio, p, x);
    b := b';
    ReachStep(c, s, s.(bio := m1), Client(B.GetStep(p, x, b)));
    ReachStep(c, s.(bio := m1), s.(bio := m2), Client(B.AcquireStep(p, b)));
    s' := s.(bio := m3);
    if m3 != m2 {
      ReachStep(c, s.(bio := m2), s', Client(B.FillStep(p, b)));
    }
  }

  lemma ClientBrelse(c: Config, s: State, p: nat, b: nat, x: nat) returns (s': State)
    requires Reach(c, s) && B.Inv(s.bio) && Settled(s.bio) && Free(s, p) && B.Has(s.bio, p, b, x) && x !in B.Abs(s.bio).open
    ensures Reach(c, s') && s'.log == s.log && Released(s.bio, s'.bio, p, b, x)
  {
    hide B.Inv, B.Abs, Reach, B.StepBy, Released, B.Has;
    var m1, m2 := Brelse(s.bio, p, b, x);
    ReachStep(c, s, s.(bio := m1), Client(B.UnlockStep(p, b)));
    s' := s.(bio := m2);
    ReachStep(c, s.(bio := m1), s', Client(B.DropStep(p, b)));
  }

  /** The bread the job is at. */
  lemma WorkerBread(c: Config, s: State, x: nat) returns (s': State, b: nat)
    requires B.Inv(s.bio) && Settled(s.bio) && Wanted(c, s.log) == Some(x)
    requires x < |s.bio.disk| && x !in B.Abs(s.bio).locked && C.Fetchable(s.bio.cache.bufs, x)
    requires (s.log.job.WriteLog? || s.log.job.Installing?) && s.log.job.pc == GetHome ==> Ready(s, Slot(c, s.log.job.t))
    ensures Advanced(s.log.job).Some?
    ensures Leads(c, s, s') && (Reach(c, s) ==> Reach(c, s'))
    ensures s'.log == s.log.(job := Advanced(s.log.job).value) && Fetched(s.bio, s'.bio, s.log.worker, b, x)
  {
    hide B.Inv, B.Abs, Reach, Leads, Fetched, C.Fetchable, Ready;
    var p := s.log.worker;
    var m1, m2, m3, b' := Bread(s.bio, p, x);
    b := b';
    var l := s.log.(job := Advanced(s.log.job).value);
    TakesAsk(c, s, State(m1, l), b);
    hide B.Get, B.Acquire, B.Fill;
    TakesInside(c, s, State(m1, l), State(m2, l), B.AcquireStep(p, b));
    s' := State(m3, l);
    if m3 != m2 {
      TakesInside(c, s, State(m2, l), s', B.FillStep(p, b));
    }
  }

  /** The brelse the job is at. */
  lemma WorkerBrelse(c: Config, s: State, b: nat, x: nat) returns (s': State)
    requires B.Inv(s.bio) && Settled(s.bio) && Given(c, s.log) == Some(x)
    requires B.Has(s.bio, s.log.worker, b, x) && x !in B.Abs(s.bio).open
    ensures Advanced(s.log.job).Some?
    ensures Leads(c, s, s') && (Reach(c, s) ==> Reach(c, s'))
    ensures s'.log == s.log.(job := Advanced(s.log.job).value) && Released(s.bio, s'.bio, s.log.worker, b, x)
  {
    hide B.Inv, B.Abs, Reach, Leads, Released;
    var p := s.log.worker;
    var m1, m2 := Brelse(s.bio, p, b, x);
    var l := s.log.(job := Advanced(s.log.job).value);
    TakesGive(c, s, State(m1, l), b);
    hide B.Unlock, B.Drop;
    s' := State(m2, l);
    TakesInside(c, s, State(m1, l), s', B.DropStep(p, b));
  }
}
