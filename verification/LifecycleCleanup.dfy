/** The other half of the lifecycle: entries of processes that are gone do not stay. */
module LifecycleCleanup {
  import opened KernelMaps
  import opened Lifecycle

  /** The step does not protect `p` anew, and no delete of `p` fails in it. Deletes of other PIDs may. */
  predicate Undisturbed(s: State, step: Step, p: Pid) {
    match step
    case InKernel(k) => k.DeliverExit? && |s.kernel.exits| > 0 && s.kernel.exits[0] == p ==> k.deleteOk
    case Accept(_) => true
    case Handshake(c, h) => h.ProtectPID? ==> c < |s.conns| && s.conns[c].pid != p
    case InSweep(w) => w.Delete? && s.sweep.Condemned? && s.sweep.pid == p ==> w.deleteOk
  }

  ghost predicate UndisturbedBetween(tr: Trace, p: Pid, i: nat, j: nat)
    requires IsTrace(tr) && i <= j < |tr.states|
  {
    forall n :: i <= n < j ==> Undisturbed(tr.states[n], tr.steps[n], p)
  }

  // ----- By exit event

  predicate ReleasedOrQueued(k: Kernel, p: Pid) {
    p !in k.protectedPids || p in k.exits
  }

  lemma StepKeepsQueued(s: State, step: Step, p: Pid)
    requires Enabled(s, step) && Undisturbed(s, step, p) && ReleasedOrQueued(s.kernel, p)
    ensures ReleasedOrQueued(Apply(s, step).kernel, p)
  {
    if step.InKernel? && step.k.DeliverExit? {
      assert s.kernel.exits == [s.kernel.exits[0]] + s.kernel.exits[1..];
    }
  }

  /** Once an exit event for `p` is queued, `p` is out of the map as soon as the queue holds none. */
  lemma {:induction false} QueuedExitReleases(tr: Trace, p: Pid, i: nat, j: nat)
    requires IsTrace(tr) && i <= j < |tr.states| && UndisturbedBetween(tr, p, i, j)
    requires p in tr.states[i].kernel.exits && p !in tr.states[j].kernel.exits
    ensures p !in tr.states[j].kernel.protectedPids
  {
    var n := i;
    while n < j
      invariant i <= n <= j && ReleasedOrQueued(tr.states[n].kernel, p)
    {
      assert StepAt(tr, n);
      StepKeepsQueued(tr.states[n], tr.steps[n], p);
      n := n + 1;
    }
  }

  // ----- By the sweep

  /** `p` is out of the map, or the sweep still has it before it. */
  predicate ReleasedOrSwept(s: State, p: Pid) {
    || p !in s.kernel.protectedPids
    || (s.sweep.Sweeping? && p in s.sweep.todo)
    || (s.sweep.Condemned? && (p == s.sweep.pid || p in s.sweep.todo))
  }

  /** The step is not a check by which the sweep finds that `p` exists. */
  predicate NotFound(s: State, step: Step, p: Pid) {
    step.InSweep? && step.w.Check? && s.sweep.Sweeping? && s.sweep.todo != [] && s.sweep.todo[0] == p ==>
      !StatFinds(s.kernel, p, step.w.found)
  }

  lemma SweepStepKeepsSwept(s: State, w: SweepStep, p: Pid)
    requires SweepEnabled(s.kernel, s.sweep, w) && Undisturbed(s, InSweep(w), p)
    requires NotFound(s, InSweep(w), p) && ReleasedOrSwept(s, p)
    ensures ReleasedOrSwept(Apply(s, InSweep(w)), p)
  {
    if w.Check? && s.sweep.todo != [] {
      assert s.sweep.todo == [s.sweep.todo[0]] + s.sweep.todo[1..];
    }
  }

  lemma StepKeepsSwept(s: State, step: Step, p: Pid)
    requires Enabled(s, step) && Undisturbed(s, step, p)
    requires NotFound(s, step, p) && ReleasedOrSwept(s, p)
    ensures ReleasedOrSwept(Apply(s, step), p)
  {
    if step.InSweep? { SweepStepKeepsSwept(s, step.w, p); }
  }

  /** Whatever became of its `seen_pids` record and its exit event, an entry is out of the map by the time a
      sweep that listed it is over, unless the sweep found a process or a thread with its number. */
  lemma {:induction false} SweepReclaims(tr: Trace, p: Pid, i: nat, j: nat)
    requires IsTrace(tr) && i < j < |tr.states| && UndisturbedBetween(tr, p, i, j)
    requires tr.steps[i].InSweep? && tr.steps[i].w.List? && p in tr.steps[i].w.pids
    requires forall n :: i <= n < j ==> NotFound(tr.states[n], tr.steps[n], p)
    requires tr.states[j].sweep.Idle?
    ensures p !in tr.states[j].kernel.protectedPids
  {
    assert StepAt(tr, i);
    var n := i + 1;
    while n < j
      invariant i < n <= j && ReleasedOrSwept(tr.states[n], p)
    {
      assert StepAt(tr, n);
      StepKeepsSwept(tr.states[n], tr.steps[n], p);
      n := n + 1;
    }
  }
}
