/** Whose identity a response was decided on: the caller is identified and matched before the first
    start-time read, so the process matched and the process served may differ. */
module LifecycleMatch {
  import opened Options
  import opened KernelMaps
  import opened Lifecycle
  import opened LifecycleProofs
  import opened LifecycleHistory
  import opened LifecycleReuse

  /** No process is started under `p` by the steps from `i` to `j`. */
  ghost predicate NotReissued(tr: Trace, p: Pid, i: nat, j: nat)
    requires IsTrace(tr) && i <= j < |tr.states|
  {
    forall n :: i <= n < j ==> !StartsOwner(tr.steps[n], p)
  }

  predicate StartsOwner(step: Step, p: Pid) {
    step.InKernel? && step.k.Start? && step.k.pid == p
  }

  lemma {:induction false} ConnsGrow(tr: Trace, i: nat, j: nat)
    requires IsTrace(tr) && i <= j < |tr.states|
    ensures |tr.states[i].conns| <= |tr.states[j].conns|
  {
    if i < j {
      ConnsGrow(tr, i, j - 1);
      assert StepAt(tr, j - 1);
    }
  }

  lemma AcceptedNow(s: State, step: Step, c: nat)
    requires Enabled(s, step) && c < |Apply(s, step).conns|
    ensures c < |s.conns| ==> Apply(s, step).conns[c].pid == s.conns[c].pid
    ensures c >= |s.conns| ==> c == |s.conns| && step == Accept(Apply(s, step).conns[c].pid)
  {
  }

  /** The step at which a connection's caller was identified and matched. */
  lemma {:induction false} MatchedAt(tr: Trace, requireProtection: bool, c: nat, n: nat) returns (m: nat)
    requires IsTrace(tr) && tr.states[0] == Init(requireProtection) && n < |tr.states| && c < |tr.states[n].conns|
    ensures m < n && |tr.states[m].conns| == c && tr.steps[m] == Accept(tr.states[n].conns[c].pid)
    decreases n
  {
    assert StepAt(tr, n - 1);
    AcceptedNow(tr.states[n - 1], tr.steps[n - 1], c);
    if c < |tr.states[n - 1].conns| {
      m := MatchedAt(tr, requireProtection, c, n - 1);
    } else {
      m := n - 1;
    }
  }

  lemma KernelOwnerWasThere(k: Kernel, step: KernelStep, p: Pid)
    requires KernelEnabled(k, step) && !(step.Start? && step.pid == p) && Owner(KernelApply(k, step), p).Some?
    ensures Owner(k, p) == Owner(KernelApply(k, step), p)
  {
  }

  lemma OwnerWasThere(s: State, step: Step, p: Pid)
    requires Enabled(s, step) && !StartsOwner(step, p) && Owner(Apply(s, step).kernel, p).Some?
    ensures Owner(s.kernel, p) == Owner(Apply(s, step).kernel, p)
  {
    if step.InKernel? { KernelOwnerWasThere(s.kernel, step.k, p); }
  }

  lemma {:induction false} OwnerSinceMatch(tr: Trace, p: Pid, i: nat, j: nat)
    requires IsTrace(tr) && i <= j < |tr.states| && NotReissued(tr, p, i, j)
    requires Owner(tr.states[j].kernel, p).Some?
    ensures Owner(tr.states[i].kernel, p) == Owner(tr.states[j].kernel, p)
    decreases j
  {
    if i < j {
      assert StepAt(tr, j - 1);
      OwnerWasThere(tr.states[j - 1], tr.steps[j - 1], p);
      OwnerSinceMatch(tr, p, i, j - 1);
    }
  }

  lemma SameOwnerNotReissued(tr: Trace, p: Pid, start: nat, i: nat, j: nat)
    requires IsTrace(tr) && ProcOk(tr.states[0].kernel, p) && i <= j < |tr.states|
    requires Owner(tr.states[i].kernel, p) == Some(start) && Owner(tr.states[j].kernel, p) == Some(start)
    ensures NotReissued(tr, p, i, j)
  {
    forall n | i <= n < j ensures !StartsOwner(tr.steps[n], p) {
      EqualReadingsOneOwner(tr, p, start, i, n, j);
      assert StepAt(tr, n);
    }
  }

  /** The process that was served is the one whose identity was matched exactly when the PID was not
      re-issued between the match and the first start-time read. */
  lemma {:induction false} ServedIsMatchedIffNotReissued(tr: Trace, requireProtection: bool, c: nat)
    returns (m: nat, past: Past)
    requires IsTrace(tr) && tr.states[0] == Init(requireProtection)
    requires c < |Last(tr).conns| && Last(tr).conns[c].phase.Served?
    ensures var conn := Last(tr).conns[c];
            && m < past.read < |tr.steps| && tr.steps[m] == Accept(conn.pid) && |tr.states[m].conns| == c
            && By(tr, c, past.read) && tr.steps[past.read].h.ReadStart?
            && (Owner(tr.states[m].kernel, conn.pid) == Some(conn.phase.before) <==>
                NotReissued(tr, conn.pid, m, past.read))
  {
    var conn := Last(tr).conns[c];
    m := MatchedAt(tr, requireProtection, c, |tr.states| - 1);
    past := ServedToOneProcess(tr, requireProtection, c);
    assert StepAt(tr, past.read);
    if past.read <= m { ConnsGrow(tr, past.read, m); }
    if NotReissued(tr, conn.pid, m, past.read) {
      OwnerSinceMatch(tr, conn.pid, m, past.read);
    }
    if Owner(tr.states[m].kernel, conn.pid) == Some(conn.phase.before) {
      SameOwnerNotReissued(tr, conn.pid, conn.phase.before, m, past.read);
    }
  }

  lemma PushKernel(tr: Trace, step: KernelStep, k': Kernel) returns (tr': Trace)
    requires ReuseSafeTrace(tr) && !step.Start? && KernelEnabled(Last(tr).kernel, step)
    requires k' == KernelApply(Last(tr).kernel, step)
    ensures ReuseSafeTrace(tr') && tr.states <= tr'.states && tr.steps <= tr'.steps
    ensures Last(tr') == Last(tr).(kernel := k')
  {
    PushIsTrace(tr, InKernel(step));
    tr' := Push(tr, InKernel(step));
  }

  lemma QuietExit(k: Kernel, p: Pid, start: nat)
    requires k.procs == map[p := Proc(start, 1, 0)] && p !in k.seen
    ensures var k1, k2 := k.(procs := map[p := Proc(start, 0, 1)]), k.(procs := map[p := Proc(start, 0, 0)]);
            && KernelApply(k, LeaveLive(p)) == k1
            && KernelApply(k1, ExitTracepoint(p, false, false)) == k2
            && KernelApply(k2, Reap(p)) == k.(procs := map[])
  {
  }

  /** The only process, which has one thread and is not tracked, exits and is reaped. */
  lemma LeavesQuietly(tr: Trace, p: Pid, start: nat) returns (tr': Trace)
    requires ReuseSafeTrace(tr) && Last(tr).kernel.procs == map[p := Proc(start, 1, 0)] && p !in Last(tr).kernel.seen
    ensures ReuseSafeTrace(tr') && tr.states <= tr'.states && tr.steps <= tr'.steps
    ensures Last(tr') == Last(tr).(kernel := Last(tr).kernel.(procs := map[]))
  {
    var k := Last(tr).kernel;
    QuietExit(k, p, start);
    tr' := PushKernel(tr, LeaveLive(p), k.(procs := map[p := Proc(start, 0, 1)]));
    tr' := PushKernel(tr', ExitTracepoint(p, false, false), k.(procs := map[p := Proc(start, 0, 0)]));
    tr' := PushKernel(tr', Reap(p), k.(procs := map[]));
  }

  /** PID 1 is matched under its first owner, which leaves; the PID is issued again. */
  lemma MatchedThenReissued(requireProtection: bool) returns (tr: Trace)
    ensures ReuseSafeTrace(tr) && tr.states[0] == Init(requireProtection) && |tr.steps| > 1
    ensures tr.steps[1] == Accept(1) && Owner(tr.states[1].kernel, 1) == Some(0)
    ensures Last(tr).conns == [Conn(1, Matched)] && Live(Last(tr).kernel, 1) && Last(tr).kernel.procs[1].start == 1
    ensures Last(tr).kernel.protectedPids == {}
  {
    tr := Singleton(Init(requireProtection));
    PushIsTrace(tr, InKernel(Start(1, 0)));
    tr := Push(tr, InKernel(Start(1, 0)));
    PushIsTrace(tr, Accept(1));
    tr := Push(tr, Accept(1));
    tr := LeavesQuietly(tr, 1, 0);
    PushIsTrace(tr, InKernel(Start(1, 1)));
    tr := Push(tr, InKernel(Start(1, 1)));
  }

  /** A run in which they differ, safe in the reuse of PIDs: the second owner goes through the rest of
      the handshake and is served what the first was matched for. */
  lemma MatchedAndServedCanDiffer(requireProtection: bool) returns (tr: Trace)
    ensures ReuseSafeTrace(tr) && tr.states[0] == Init(requireProtection) && |tr.steps| > 1
    ensures tr.steps[1] == Accept(1) && tr.states[1].conns == [] && Owner(tr.states[1].kernel, 1) == Some(0)
    ensures Last(tr).conns == [Conn(1, Served(1, true))]
  {
    var before := MatchedThenReissued(requireProtection);
    tr := FinishHandshake(before, 0, 1);
    assert StepAt(tr, 0) && StepAt(tr, 1);
  }
}
