/** What a served response says about the past, and when exit events are queued. Nothing here
    assumes anything about PID reuse beyond start times that grow from owner to owner. */
module LifecycleHistory {
  import opened Options
  import opened KernelMaps
  import opened Lifecycle
  import opened LifecycleProofs

  // ----- One process from the first start-time read to the second

  /** The newest owner never gets older, and an owner that appears is newer than every earlier one. */
  predicate OnlyNewer(k: Kernel, k': Kernel, p: Pid) {
    && (p in k.lastStart ==> p in k'.lastStart && k.lastStart[p] <= k'.lastStart[p])
    && (Owner(k', p).None? || Owner(k', p) == Owner(k, p) || p !in k.lastStart || k.lastStart[p] < Owner(k', p).value)
  }

  lemma KernelOnlyNewer(k: Kernel, step: KernelStep, p: Pid)
    requires KernelEnabled(k, step) && ProcOk(k, p)
    ensures ProcOk(KernelApply(k, step), p) && OnlyNewer(k, KernelApply(k, step), p)
  {
  }

  lemma OwnersOnlyGetNewer(s: State, step: Step, p: Pid)
    requires Enabled(s, step) && ProcOk(s.kernel, p)
    ensures ProcOk(Apply(s, step).kernel, p) && OnlyNewer(s.kernel, Apply(s, step).kernel, p)
  {
    if step.InKernel? { KernelOnlyNewer(s.kernel, step.k, p); }
  }

  lemma NewestOwnerGrows(tr: Trace, p: Pid, i: nat, j: nat)
    requires IsTrace(tr) && ProcOk(tr.states[0].kernel, p) && i <= j < |tr.states|
    ensures ProcOk(tr.states[i].kernel, p) && ProcOk(tr.states[j].kernel, p)
    ensures p in tr.states[i].kernel.lastStart ==>
              && p in tr.states[j].kernel.lastStart
              && tr.states[i].kernel.lastStart[p] <= tr.states[j].kernel.lastStart[p]
    decreases j
  {
    if j > 0 {
      NewestOwnerGrows(tr, p, if i == j then i - 1 else i, j - 1);
      assert StepAt(tr, j - 1);
      OwnersOnlyGetNewer(tr.states[j - 1], tr.steps[j - 1], p);
    }
  }

  /** Two equal readings mean the PID had that one owner at every moment in between. */
  lemma {:induction false} EqualReadingsOneOwner(tr: Trace, p: Pid, start: nat, i: nat, n: nat, j: nat)
    requires IsTrace(tr) && ProcOk(tr.states[0].kernel, p) && i <= n <= j < |tr.states|
    requires Owner(tr.states[i].kernel, p) == Some(start) && Owner(tr.states[j].kernel, p) == Some(start)
    ensures Owner(tr.states[n].kernel, p) == Some(start)
    decreases j
  {
    if n < j {
      NewestOwnerGrows(tr, p, i, j - 1);
      assert StepAt(tr, j - 1);
      OwnersOnlyGetNewer(tr.states[j - 1], tr.steps[j - 1], p);
      EqualReadingsOneOwner(tr, p, start, i, n, j - 1);
    }
  }

  /** The indices at which a connection took its handshake steps. */
  datatype Past = Past(read: nat, mark: nat, track: nat, recheck: nat, reply: nat)

  predicate By(tr: Trace, c: nat, i: nat) {
    i < |tr.steps| && tr.steps[i].Handshake? && tr.steps[i].c == c
  }

  predicate AfterMark(phase: Phase) {
    phase.Marked? || phase.Tracked? || phase.Confirmed? || phase.Served?
  }

  /** `past` accounts for how a connection for `pid` came to be in `phase` before state `n`. */
  ghost predicate Explains(tr: Trace, c: nat, n: nat, pid: Pid, phase: Phase, past: Past)
    requires IsTrace(tr) && n < |tr.states|
  {
    && (phase.Snapshotted? || AfterMark(phase) ==>
          && past.read < n && By(tr, c, past.read) && tr.steps[past.read].h.ReadStart?
          && Owner(tr.states[past.read].kernel, pid) == Some(phase.before))
    && (AfterMark(phase) ==>
          && past.read < past.mark < n && By(tr, c, past.mark) && tr.steps[past.mark].h.ProtectPID?
          && (phase.ok ==> pid in tr.states[past.mark + 1].kernel.protectedPids))
    && (AfterMark(phase) && !phase.Marked? ==>
          && past.mark < past.track < n && By(tr, c, past.track) && tr.steps[past.track].h.TrackPID?
          && (tr.steps[past.track].h.kernelOk ==> pid in tr.states[past.track + 1].kernel.seen))
    && (phase.Confirmed? || phase.Served? ==>
          && past.track < past.recheck < n && By(tr, c, past.recheck) && tr.steps[past.recheck].h.Recheck?
          && Owner(tr.states[past.recheck].kernel, pid) == Some(phase.before))
    && (phase.Served? ==>
          && past.recheck < past.reply < n && By(tr, c, past.reply) && tr.steps[past.reply].h.Reply?
          && (tr.states[past.reply].requireProtection ==> phase.ok))
  }

  function Extend(past: Past, h: HandStep, i: nat): Past {
    match h
    case ReadStart(_) => past.(read := i)
    case ProtectPID(_) => past.(mark := i)
    case TrackPID(_, _) => past.(track := i)
    case Recheck(_) => past.(recheck := i)
    case Rollback(_) => past
    case Reply => past.(reply := i)
  }

  lemma ExplainStep(tr: Trace, c: nat, i: nat, past: Past)
    requires IsTrace(tr) && By(tr, c, i) && c < |tr.states[i].conns|
    requires HandEnabled(tr.states[i].conns[c].phase, tr.steps[i].h)
    requires Explains(tr, c, i, tr.states[i].conns[c].pid, tr.states[i].conns[c].phase, past)
    requires tr.states[i + 1].kernel == HandKernel(tr.states[i].kernel, tr.states[i].conns[c].pid, tr.steps[i].h)
    ensures var s, h := tr.states[i], tr.steps[i].h;
            Explains(tr, c, i + 1, s.conns[c].pid, HandPhase(s.kernel, s.requireProtection, s.conns[c], h),
                     Extend(past, h, i))
  {
  }

  /** A step changes at most the connection it works on, in the way that connection's step says. */
  lemma ConnsShape(s: State, step: Step, c: nat)
    requires Enabled(s, step) && c < |Apply(s, step).conns|
    ensures c >= |s.conns| ==> Apply(s, step).conns[c].phase.Matched?
    ensures c < |s.conns| && step.Handshake? && step.c == c ==>
              && Apply(s, step).kernel == HandKernel(s.kernel, s.conns[c].pid, step.h)
              && Apply(s, step).conns[c] ==
                   Conn(s.conns[c].pid, HandPhase(s.kernel, s.requireProtection, s.conns[c], step.h))
    ensures c < |s.conns| && !(step.Handshake? && step.c == c) ==> Apply(s, step).conns[c] == s.conns[c]
  {
  }

  lemma StillExplains(tr: Trace, c: nat, i: nat, pid: Pid, phase: Phase, past: Past)
    requires IsTrace(tr) && i + 1 < |tr.states| && Explains(tr, c, i, pid, phase, past)
    ensures Explains(tr, c, i + 1, pid, phase, past)
  {
  }

  lemma {:induction false} Explain(tr: Trace, requireProtection: bool, c: nat, n: nat) returns (past: Past)
    requires IsTrace(tr) && tr.states[0] == Init(requireProtection)
    requires n < |tr.states| && c < |tr.states[n].conns|
    ensures Explains(tr, c, n, tr.states[n].conns[c].pid, tr.states[n].conns[c].phase, past)
    decreases n
  {
    var s, step := tr.states[n - 1], tr.steps[n - 1];
    assert StepAt(tr, n - 1);
    ConnsShape(s, step, c);
    if c >= |s.conns| {
      past := Past(0, 0, 0, 0, 0);
    } else {
      past := Explain(tr, requireProtection, c, n - 1);
      if step.Handshake? && step.c == c {
        ExplainStep(tr, c, n - 1, past);
        past := Extend(past, step.h, n - 1);
      } else {
        StillExplains(tr, c, n - 1, s.conns[c].pid, s.conns[c].phase, past);
      }
    }
  }

  /** A response that released secrets was preceded, in this order, by a start-time read, ProtectPID,
      TrackPID, a second read and the reply, with one and the same process owning the PID from the
      first read to the second; and if protection is required, ProtectPID had succeeded. */
  lemma {:induction false} ServedToOneProcess(tr: Trace, requireProtection: bool, c: nat) returns (past: Past)
    requires IsTrace(tr) && tr.states[0] == Init(requireProtection)
    requires c < |Last(tr).conns| && Last(tr).conns[c].phase.Served?
    ensures past.read < past.mark < past.track < past.recheck < past.reply < |tr.steps|
    ensures By(tr, c, past.read) && tr.steps[past.read].h.ReadStart?
    ensures By(tr, c, past.mark) && tr.steps[past.mark].h.ProtectPID?
    ensures By(tr, c, past.track) && tr.steps[past.track].h.TrackPID?
    ensures By(tr, c, past.recheck) && tr.steps[past.recheck].h.Recheck?
    ensures By(tr, c, past.reply) && tr.steps[past.reply].h.Reply?
    ensures forall n :: past.read <= n <= past.recheck ==>
                          Owner(tr.states[n].kernel, Last(tr).conns[c].pid) == Some(Last(tr).conns[c].phase.before)
    ensures Last(tr).conns[c].phase.ok ==>
              Last(tr).conns[c].pid in tr.states[past.mark + 1].kernel.protectedPids
    ensures tr.steps[past.track].h.kernelOk ==>
              Last(tr).conns[c].pid in tr.states[past.track + 1].kernel.seen
    ensures requireProtection ==> Last(tr).conns[c].phase.ok
  {
    past := Explain(tr, requireProtection, c, |tr.states| - 1);
    var pid, start := Last(tr).conns[c].pid, Last(tr).conns[c].phase.before;
    forall n | past.read <= n <= past.recheck ensures Owner(tr.states[n].kernel, pid) == Some(start) {
      EqualReadingsOneOwner(tr, pid, start, past.read, n, past.recheck);
    }
    ModeFixed(tr, past.reply);
  }

  lemma ModeFixed(tr: Trace, n: nat)
    requires IsTrace(tr) && n < |tr.states|
    ensures tr.states[n].requireProtection == tr.states[0].requireProtection
  {
    if n > 0 {
      ModeFixed(tr, n - 1);
      assert StepAt(tr, n - 1);
    }
  }

  /** Where protection is required, every live process that was ever handed secrets is in the map. */
  lemma {:induction false} SecretsImplyProtection(tr: Trace, c: nat)
    requires ReuseSafeTrace(tr) && tr.states[0] == Init(true)
    requires c < |Last(tr).conns| && Last(tr).conns[c].phase.Served?
    requires Live(Last(tr).kernel, Last(tr).conns[c].pid)
    requires Owner(Last(tr).kernel, Last(tr).conns[c].pid) == Some(Last(tr).conns[c].phase.before)
    ensures Last(tr).conns[c].pid in Last(tr).kernel.protectedPids
  {
    var past := ServedToOneProcess(tr, true, c);
    ProtectionPersists(tr, true, |tr.states| - 1);
    assert HoldsSecrets(Last(tr).kernel, Last(tr).conns[c]);
  }

  // ----- Exit events

  /** The step is the exit tracepoint of a tracked thread group with no live thread, and there is
      room for its event. */
  predicate ReportsDeath(k: Kernel, step: KernelStep) {
    && step.ExitTracepoint? && step.monitored && step.reserved
    && step.pid in k.procs && k.procs[step.pid].live == 0 && step.pid in k.seen
  }

  lemma KernelExitEvents(k: Kernel, step: KernelStep)
    requires KernelEnabled(k, step) && !step.DeliverExit?
    ensures var k' := KernelApply(k, step);
            if ReportsDeath(k, step) then k'.exits == k.exits + [step.pid] && step.pid !in k'.seen
            else k'.exits == k.exits && k'.emitted == k.emitted
  {
  }

  /** An exit event is queued exactly by the exit tracepoint of a tracked thread group with no live
      thread whose event fits the buffer, and it uses up the group's `seen_pids` entry. */
  lemma ExitEventExactlyWhenDead(s: State, step: Step)
    requires Enabled(s, step) && !(step.InKernel? && step.k.DeliverExit?)
    ensures var k, k' := s.kernel, Apply(s, step).kernel;
            if step.InKernel? && ReportsDeath(k, step.k)
            then k'.exits == k.exits + [step.k.pid] && step.k.pid !in k'.seen
            else k'.exits == k.exits && k'.emitted == k.emitted
  {
    if step.InKernel? { KernelExitEvents(s.kernel, step.k); }
  }

  /** Events ever queued for a PID, plus its open entry if any, never exceed the entries created. */
  predicate OnePerEntry(k: Kernel, p: Pid) {
    Count(k.emitted, p) + (if p in k.seen then 1 else 0) <= Count(k.entries, p)
  }

  lemma KernelKeepsOnePerEntry(k: Kernel, step: KernelStep, p: Pid)
    requires KernelEnabled(k, step) && OnePerEntry(k, p)
    ensures OnePerEntry(KernelApply(k, step), p)
  {
  }

  lemma StepKeepsOnePerEntry(s: State, step: Step, p: Pid)
    requires Enabled(s, step) && OnePerEntry(s.kernel, p)
    ensures OnePerEntry(Apply(s, step).kernel, p)
  {
    if step.InKernel? { KernelKeepsOnePerEntry(s.kernel, step.k, p); }
  }

  /** However many last threads have already left the live count before the first of their
      tracepoints runs, at most one exit event is queued per `seen_pids` entry. */
  lemma {:induction false} AtMostOneExitPerEntry(tr: Trace, requireProtection: bool, p: Pid, n: nat)
    requires IsTrace(tr) && tr.states[0] == Init(requireProtection) && n < |tr.states|
    ensures OnePerEntry(tr.states[n].kernel, p)
  {
    if n > 0 {
      AtMostOneExitPerEntry(tr, requireProtection, p, n - 1);
      assert StepAt(tr, n - 1);
      StepKeepsOnePerEntry(tr.states[n - 1], tr.steps[n - 1], p);
    }
  }

  /** While some thread of a group stays live, as the one calling execve does, exits of its
      siblings queue nothing for the PID. */
  lemma {:induction false} SiblingExitsQueueNothing(tr: Trace, p: Pid, i: nat, j: nat)
    requires IsTrace(tr) && i <= j < |tr.states|
    requires forall n :: i <= n < j ==> Live(tr.states[n].kernel, p)
    ensures Count(tr.states[j].kernel.emitted, p) == Count(tr.states[i].kernel.emitted, p)
    ensures multiset(tr.states[j].kernel.exits)[p] <= multiset(tr.states[i].kernel.exits)[p]
    decreases j
  {
    if i < j {
      SiblingExitsQueueNothing(tr, p, i, j - 1);
      var s, step := tr.states[j - 1], tr.steps[j - 1];
      assert StepAt(tr, j - 1);
      if step.InKernel? && step.k.DeliverExit? {
        assert s.kernel.exits == [s.kernel.exits[0]] + s.kernel.exits[1..];
      } else {
        ExitEventExactlyWhenDead(s, step);
      }
    }
  }

  // ----- Threads are conserved

  /** The threads of the process that owns `p`, and those that have left but not yet passed the tracepoint. */
  function Threads(k: Kernel, p: Pid): nat {
    if p in k.procs then k.procs[p].live + k.procs[p].exiting else 0
  }

  /** What a step adds to them: one for a start or a clone, less one for a tracepoint; leaving the live count
      and everything else adds nothing. */
  function Added(step: Step, p: Pid): int {
    if step.InKernel? && (step.k.Start? || step.k.Clone?) && step.k.pid == p then 1
    else if step.InKernel? && step.k.ExitTracepoint? && step.k.pid == p then -1
    else 0
  }

  function TotalAdded(steps: seq<Step>, p: Pid): int {
    if steps == [] then 0 else TotalAdded(steps[..|steps| - 1], p) + Added(steps[|steps| - 1], p)
  }

  lemma KernelCountsThreads(k: Kernel, step: KernelStep, p: Pid)
    requires KernelEnabled(k, step)
    ensures Threads(KernelApply(k, step), p) == Threads(k, p) + Added(InKernel(step), p)
  {
  }

  lemma StepCountsThreads(s: State, step: Step, p: Pid)
    requires Enabled(s, step)
    ensures Threads(Apply(s, step).kernel, p) == Threads(s.kernel, p) + Added(step, p)
  {
    if step.InKernel? { KernelCountsThreads(s.kernel, step.k, p); }
  }

  /** In every run, the threads a PID has are those started and cloned less those whose tracepoint has fired,
      so a process is reaped only when every thread has passed its tracepoint. */
  lemma {:induction false} ThreadsConserved(tr: Trace, requireProtection: bool, p: Pid, n: nat)
    requires IsTrace(tr) && tr.states[0] == Init(requireProtection) && n < |tr.states|
    ensures Threads(tr.states[n].kernel, p) == TotalAdded(tr.steps[..n], p)
  {
    if n > 0 {
      ThreadsConserved(tr, requireProtection, p, n - 1);
      assert StepAt(tr, n - 1);
      StepCountsThreads(tr.states[n - 1], tr.steps[n - 1], p);
      assert tr.steps[..n][..n - 1] == tr.steps[..n - 1];
    }
  }
}
