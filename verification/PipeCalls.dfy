/** Calls on a pipe come through open files: why no end is closed under a caller. */
module PipeCalls {
  import F = SharedFiles
  import P = PipeMachine

  /** Machine m runs pipe q of s: who is in piperead or pipewrite got there through a file of q. */
  ghost predicate Runs(s: F.State, q: nat, m: P.State) {
    && |m.procs| == |s.procs|
    && (forall p :: 0 <= p < |m.procs| && m.procs[p] != P.Out ==>
                      s.procs[p].ctl.InPipe? && s.procs[p].ctl.q == q && s.procs[p].ctl.w == m.procs[p].Writing?)
  }

  /** When a process shuts an end of pipe q, nobody is in a call on that end. */
  lemma CloseFindsNobody(run: seq<F.State>, steps: seq<F.Step>, i: nat, p: nat, m: P.State)
    requires F.IsRun(run, steps) && i < |run| && p < |run[i].procs| && run[i].procs[p].ctl.Shutting?
    requires Runs(run[i], run[i].procs[p].ctl.q, m)
    ensures P.Unused(m, run[i].procs[p].ctl.w)
  {
    forall r | 0 <= r < |m.procs| && m.procs[r] != P.Out
      ensures m.procs[r].Writing? != run[i].procs[p].ctl.w
    {
      F.NobodyInsideAtClose(run, steps, i, p, r);
    }
  }
}
