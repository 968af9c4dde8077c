/** What every run of the lifecycle machine keeps. */
module LifecycleProofs {
  import opened Options
  import opened KernelMaps
  import opened Lifecycle

  // ----- The invariant behind whole-run persistence

  predicate HasBefore(phase: Phase) {
    !phase.Matched? && !phase.Withheld?
  }

  predicate MarkedOk(phase: Phase) {
    (phase.Marked? || phase.Tracked? || phase.Confirmed? || phase.Served?) && phase.ok
  }

  /** A connection's snapshot is not newer than its PID's newest owner; one that is rolling back
      names a dead owner; while it may still roll back, a live owner is the one it snapshotted; and
      from a successful ProtectPID on, that process is in the map while it lives. */
  predicate ConnOk(k: Kernel, conn: Conn) {
    && (HasBefore(conn.phase) ==> conn.pid in k.lastStart && conn.phase.before <= k.lastStart[conn.pid])
    && (conn.phase.RollingBack? ==> !Live(k, conn.pid))
    && (Dangling(conn.phase) && Live(k, conn.pid) ==> Owner(k, conn.pid) == Some(conn.phase.before))
    && (MarkedOk(conn.phase) && Live(k, conn.pid) && Owner(k, conn.pid) == Some(conn.phase.before) ==>
          conn.pid in k.protectedPids)
  }

  /** The current owner of a PID is its newest one. */
  predicate ProcOk(k: Kernel, p: Pid) {
    p in k.procs ==> p in k.lastStart && k.lastStart[p] == k.procs[p].start
  }

  ghost predicate KernelOk(k: Kernel) {
    && (forall p: Pid :: ProcOk(k, p))
    && (forall i :: 0 <= i < |k.exits| ==> !Live(k, k.exits[i]))
  }

  ghost predicate Inv(s: State) {
    && KernelOk(s.kernel)
    && (s.sweep.Condemned? ==> !Live(s.kernel, s.sweep.pid))
    && (forall c :: 0 <= c < |s.conns| ==> ConnOk(s.kernel, s.conns[c]))
  }

  /** No PID gains a live owner and no live process loses protection. */
  ghost predicate Benign(k: Kernel, k': Kernel) {
    && k'.lastStart == k.lastStart
    && forall p: Pid :: Live(k', p) ==> BenignAt(k, k', p)
  }

  predicate BenignAt(k: Kernel, k': Kernel, p: Pid) {
    Live(k, p) && Owner(k', p) == Owner(k, p) && (p in k.protectedPids ==> p in k'.protectedPids)
  }

  lemma BenignKeepsConn(k: Kernel, k': Kernel, conn: Conn)
    requires ConnOk(k, conn) && Benign(k, k')
    ensures ConnOk(k', conn)
  {
  }

  lemma KernelStepKeeps(k: Kernel, step: KernelStep)
    requires KernelOk(k) && KernelEnabled(k, step)
    requires step.Start? ==> step.pid !in k.exits
    ensures KernelOk(KernelApply(k, step))
    ensures !step.Start? ==> Benign(k, KernelApply(k, step))
  {
    var k' := KernelApply(k, step);
    assert forall p: Pid :: ProcOk(k', p) by {
      forall p: Pid ensures ProcOk(k', p) { assert ProcOk(k, p); }
    }
  }

  lemma HandStepKeeps(k: Kernel, req: bool, conn: Conn, step: HandStep)
    requires KernelOk(k) && ConnOk(k, conn) && HandEnabled(conn.phase, step)
    ensures KernelOk(HandKernel(k, conn.pid, step))
    ensures Benign(k, HandKernel(k, conn.pid, step))
    ensures ConnOk(HandKernel(k, conn.pid, step), Conn(conn.pid, HandPhase(k, req, conn, step)))
  {
    assert ProcOk(k, conn.pid);
    forall p: Pid ensures ProcOk(HandKernel(k, conn.pid, step), p) { assert ProcOk(k, p); }
  }

  lemma SweepStepKeeps(k: Kernel, sweep: Sweep, step: SweepStep)
    requires KernelOk(k) && SweepEnabled(k, sweep, step)
    requires sweep.Condemned? ==> !Live(k, sweep.pid)
    ensures var k', sweep' := SweepKernel(k, sweep, step), SweepApply(k, sweep, step);
            KernelOk(k') && Benign(k, k') && (sweep'.Condemned? ==> !Live(k', sweep'.pid))
  {
    forall p: Pid ensures ProcOk(SweepKernel(k, sweep, step), p) { assert ProcOk(k, p); }
  }

  lemma StartKeepsConn(s: State, pid: Pid, start: nat, c: nat)
    requires Inv(s) && KernelEnabled(s.kernel, Start(pid, start)) && !NamesEarlierOwner(s, pid) && c < |s.conns|
    ensures ConnOk(KernelApply(s.kernel, Start(pid, start)), s.conns[c])
  {
  }

  lemma StepKeeps(s: State, step: Step)
    requires Inv(s) && Enabled(s, step) && ReuseSafe(s, step)
    ensures Inv(Apply(s, step))
  {
    var s' := Apply(s, step);
    match step {
      case InKernel(k) => KernelStepKeeps(s.kernel, k);
      case Accept(_) =>
      case Handshake(c, h) => HandStepKeeps(s.kernel, s.requireProtection, s.conns[c], h);
      case InSweep(w) => SweepStepKeeps(s.kernel, s.sweep, w);
    }
    forall c | 0 <= c < |s'.conns| ensures ConnOk(s'.kernel, s'.conns[c]) {
      if step.InKernel? && step.k.Start? {
        StartKeepsConn(s, step.k.pid, step.k.start, c);
      } else if c < |s.conns| && s'.conns[c] == s.conns[c] && !step.Accept? {
        BenignKeepsConn(s.kernel, s'.kernel, s.conns[c]);
      }
    }
  }

  lemma TraceKeeps(tr: Trace, n: nat)
    requires ReuseSafeTrace(tr) && Inv(tr.states[0]) && n < |tr.states|
    ensures Inv(tr.states[n])
  {
    if n > 0 {
      TraceKeeps(tr, n - 1);
      assert StepAt(tr, n - 1);
      StepKeeps(tr.states[n - 1], tr.steps[n - 1]);
    }
  }

  lemma InvIsPersistent(s: State)
    requires Inv(s)
    ensures Persistent(s)
  {
  }

  /** In every state of every run in which no PID is re-issued while something still names its
      earlier owner, every live process answered Protected = true is in the protected map. */
  lemma {:induction false} ProtectionPersists(tr: Trace, requireProtection: bool, n: nat)
    requires ReuseSafeTrace(tr) && tr.states[0] == Init(requireProtection) && n < |tr.states|
    ensures Persistent(tr.states[n])
  {
    TraceKeeps(tr, n);
    InvIsPersistent(tr.states[n]);
  }
}
