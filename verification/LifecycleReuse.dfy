/** The hypothesis on PID reuse is exact: re-issuing a PID that something still names loses protection,
    even when the protected map is full. */
module LifecycleReuse {
  import opened Options
  import opened KernelMaps
  import opened Lifecycle
  import opened LifecycleProofs

  // ----- Building runs, and what a stale deleter does in one

  function Singleton(s: State): Trace {
    Trace([s], [])
  }

  function Push(tr: Trace, step: Step): Trace
    requires |tr.states| > 0 && Enabled(Last(tr), step)
  {
    Trace(tr.states + [Apply(Last(tr), step)], tr.steps + [step])
  }

  lemma PushIsTrace(tr: Trace, step: Step)
    requires ReuseSafeTrace(tr) && Enabled(Last(tr), step) && ReuseSafe(Last(tr), step)
    ensures ReuseSafeTrace(Push(tr, step))
  {
    var tr' := Push(tr, step);
    forall i | 0 <= i < |tr'.steps| ensures StepAt(tr', i) {
      assert i < |tr.steps| ==> StepAt(tr, i);
    }
  }

  /** Same processes and same pending deleters, one more served connection for a live `pid`. */
  predicate ServedNow(s: State, s': State, pid: Pid) {
    && s'.kernel.procs == s.kernel.procs
    && s'.kernel.exits == s.kernel.exits
    && s'.sweep == s.sweep
    && Live(s.kernel, pid)
    && s'.conns == s.conns + [Conn(pid, Served(s.kernel.procs[pid].start, true))]
  }

  /** A matched connection of a live process goes through the rest of its handshake, uninterrupted. */
  lemma FinishHandshake(tr: Trace, c: nat, pid: Pid) returns (tr': Trace)
    requires ReuseSafeTrace(tr) && c < |Last(tr).conns| && Last(tr).conns[c] == Conn(pid, Matched)
    requires Live(Last(tr).kernel, pid) && CanInsert(Last(tr).kernel.protectedPids, pid)
    ensures ReuseSafeTrace(tr') && tr.states <= tr'.states && tr.steps <= tr'.steps
    ensures Last(tr').kernel.procs == Last(tr).kernel.procs && Last(tr').kernel.exits == Last(tr).kernel.exits
    ensures Last(tr').sweep == Last(tr).sweep && pid in Last(tr').kernel.protectedPids
    ensures Last(tr').conns == Last(tr).conns[c := Conn(pid, Served(Last(tr).kernel.procs[pid].start, true))]
  {
    var steps := [Handshake(c, ReadStart(false)), Handshake(c, ProtectPID(true)), Handshake(c, TrackPID(true, {})),
                  Handshake(c, Recheck(false)), Handshake(c, Reply)];
    var start := Last(tr).kernel.procs[pid].start;
    var phases := [Matched, Snapshotted(start), Marked(start, true), Tracked(start, true), Confirmed(start, true),
                   Served(start, true)];
    tr' := tr;
    for i := 0 to 5
      invariant ReuseSafeTrace(tr') && tr.states <= tr'.states && tr.steps <= tr'.steps
      invariant Last(tr').kernel.procs == Last(tr).kernel.procs && Last(tr').kernel.exits == Last(tr).kernel.exits
      invariant Last(tr').sweep == Last(tr).sweep
      invariant Last(tr').kernel.protectedPids ==
                if i <= 1 then Last(tr).kernel.protectedPids else Last(tr).kernel.protectedPids + {pid}
      invariant Last(tr').conns == Last(tr).conns[c := Conn(pid, phases[i])]
    {
      PushIsTrace(tr', steps[i]);
      tr' := Push(tr', steps[i]);
    }
  }

  /** The process that owns `pid` goes through a whole handshake, uninterrupted. */
  lemma HandshakeRun(tr: Trace, pid: Pid) returns (tr': Trace)
    requires ReuseSafeTrace(tr) && Live(Last(tr).kernel, pid) && CanInsert(Last(tr).kernel.protectedPids, pid)
    ensures ReuseSafeTrace(tr') && tr'.states[0] == tr.states[0]
    ensures ServedNow(Last(tr), Last(tr'), pid) && pid in Last(tr').kernel.protectedPids
  {
    PushIsTrace(tr, Accept(pid));
    tr' := FinishHandshake(Push(tr, Accept(pid)), |Last(tr).conns|, pid);
  }

  /** Delivering the queue up to an event for `pid` deletes `pid`, whoever owns it. */
  lemma DeliverRun(tr: Trace, pid: Pid, i: nat) returns (tr': Trace)
    requires ReuseSafeTrace(tr) && i < |Last(tr).kernel.exits| && Last(tr).kernel.exits[i] == pid
    ensures ReuseSafeTrace(tr') && tr'.states[0] == tr.states[0]
    ensures Last(tr').kernel.procs == Last(tr).kernel.procs && Last(tr').conns == Last(tr).conns
    ensures Last(tr').sweep == Last(tr).sweep && Last(tr').kernel.protectedPids <= Last(tr).kernel.protectedPids
    ensures pid !in Last(tr').kernel.protectedPids
    decreases i
  {
    PushIsTrace(tr, InKernel(DeliverExit(true)));
    tr' := Push(tr, InKernel(DeliverExit(true)));
    if i > 0 { tr' := DeliverRun(tr', pid, i - 1); }
  }

  function NextStep(phase: Phase): HandStep
    requires Dangling(phase)
  {
    match phase
    case Snapshotted(_) => ProtectPID(false)
    case Marked(_, _) => TrackPID(false, {})
    case Tracked(_, _) => Recheck(true)
    case _ => Rollback(true)
  }

  function Remaining(phase: Phase): nat {
    match phase
    case Snapshotted(_) => 4
    case Marked(_, _) => 3
    case Tracked(_, _) => 2
    case RollingBack(_) => 1
    case _ => 0
  }

  /** A handshake that snapshotted an earlier owner ends by deleting `pid`, whoever owns it. */
  lemma RollbackRun(tr: Trace, c: nat, pid: Pid) returns (tr': Trace)
    requires ReuseSafeTrace(tr) && c < |Last(tr).conns| && DanglingOn(Last(tr).conns[c], pid)
    requires Owner(Last(tr).kernel, pid) != Some(Last(tr).conns[c].phase.before)
    ensures ReuseSafeTrace(tr') && tr'.states[0] == tr.states[0]
    ensures Last(tr').kernel.procs == Last(tr).kernel.procs && |Last(tr').conns| == |Last(tr).conns|
    ensures Last(tr').sweep == Last(tr).sweep && Last(tr').kernel.protectedPids <= Last(tr).kernel.protectedPids
    ensures Last(tr').conns[c].pid == pid
    ensures forall d :: 0 <= d < |Last(tr).conns| && d != c ==> Last(tr').conns[d] == Last(tr).conns[d]
    ensures pid !in Last(tr').kernel.protectedPids
    decreases Remaining(Last(tr).conns[c].phase)
  {
    var phase := Last(tr).conns[c].phase;
    var step := Handshake(c, NextStep(phase));
    PushIsTrace(tr, step);
    tr' := Push(tr, step);
    if !phase.RollingBack? { tr' := RollbackRun(tr', c, pid); }
  }

  /** Whatever still names `pid`, once a new owner has been served, deletes the new owner's entry. */
  lemma StaleRun(s: State, tr: Trace, pid: Pid) returns (tr': Trace)
    requires ReuseSafeTrace(tr) && ServedNow(s, Last(tr), pid) && NamesEarlierOwner(s, pid)
    requires forall c :: 0 <= c < |s.conns| && DanglingOn(s.conns[c], pid) ==>
                           Owner(s.kernel, pid) != Some(s.conns[c].phase.before)
    ensures ReuseSafeTrace(tr') && tr'.states[0] == tr.states[0]
    ensures !Persistent(Last(tr'))
  {
    var n := |s.conns|;
    if pid in s.kernel.exits {
      var i :| 0 <= i < |s.kernel.exits| && s.kernel.exits[i] == pid;
      tr' := DeliverRun(tr, pid, i);
    } else if s.sweep.Condemned? && s.sweep.pid == pid {
      PushIsTrace(tr, InSweep(Delete(true)));
      tr' := Push(tr, InSweep(Delete(true)));
    } else {
      var c :| 0 <= c < |s.conns| && DanglingOn(s.conns[c], pid);
      assert Last(tr).conns[c] == s.conns[c];
      tr' := RollbackRun(tr, c, pid);
    }
    assert Last(tr').conns[n] == Last(tr).conns[n];
    assert HoldsSecrets(Last(tr').kernel, Last(tr').conns[n]);
  }

  // ----- The map never holds more than its capacity

  predicate Fits(k: Kernel) {
    |k.protectedPids| <= MAX_PROTECTED
  }

  lemma HandMapChange(k: Kernel, pid: Pid, h: HandStep)
    ensures var before, after := k.protectedPids, HandKernel(k, pid, h).protectedPids;
            after <= before || (CanInsert(before, pid) && after == before + {pid})
  {
  }

  /** A step takes entries out of the map, or puts in one that there is room for. */
  lemma MapChange(s: State, step: Step) returns (pid: Pid)
    requires Enabled(s, step)
    ensures var before, after := s.kernel.protectedPids, Apply(s, step).kernel.protectedPids;
            after <= before || (CanInsert(before, pid) && after == before + {pid})
  {
    pid := 0;
    if step.Handshake? {
      pid := s.conns[step.c].pid;
      HandMapChange(s.kernel, pid, step.h);
    }
  }

  lemma StepKeepsFits(s: State, step: Step)
    requires Fits(s.kernel) && Enabled(s, step)
    ensures Fits(Apply(s, step).kernel)
  {
    var pid := MapChange(s, step);
    var before, after := s.kernel.protectedPids, Apply(s, step).kernel.protectedPids;
    if after <= before { SubsetSize(after, before); }
  }

  lemma SubsetSize(a: set<Pid>, b: set<Pid>)
    requires a <= b
    ensures |a| <= |b|
  {
    assert b == a + (b - a);
  }

  /** In every state of every run. */
  lemma {:induction false} MapWithinCapacity(tr: Trace, requireProtection: bool, n: nat)
    requires IsTrace(tr) && tr.states[0] == Init(requireProtection) && n < |tr.states|
    ensures Fits(tr.states[n].kernel)
  {
    if n > 0 {
      MapWithinCapacity(tr, requireProtection, n - 1);
      assert StepAt(tr, n - 1);
      StepKeepsFits(tr.states[n - 1], tr.steps[n - 1]);
    }
  }

  // ----- Making room in a full map without using up what still names `pid`

  /** `pid` keeps its owner, no handshake for it has appeared or moved, and the map has not grown. */
  ghost predicate Spares(s: State, s': State, pid: Pid) {
    && Owner(s'.kernel, pid) == Owner(s.kernel, pid) && Live(s'.kernel, pid) == Live(s.kernel, pid)
    && s'.kernel.protectedPids <= s.kernel.protectedPids
    && |s.conns| <= |s'.conns|
    && (forall c :: 0 <= c < |s.conns| && s.conns[c].pid == pid ==> s'.conns[c] == s.conns[c])
    && (forall c :: 0 <= c < |s'.conns| && s'.conns[c].pid == pid ==> c < |s.conns| && s'.conns[c] == s.conns[c])
  }

  /** The threads of `q` leave, one after the other. */
  lemma AllLeave(tr: Trace, q: Pid) returns (tr': Trace)
    requires ReuseSafeTrace(tr)
    ensures ReuseSafeTrace(tr') && tr'.states[0] == tr.states[0]
    ensures !Live(Last(tr').kernel, q) && (q in Last(tr).kernel.procs ==> q in Last(tr').kernel.procs)
    ensures forall p: Pid :: p != q ==> Owner(Last(tr').kernel, p) == Owner(Last(tr).kernel, p)
    ensures forall p: Pid :: p != q ==> Live(Last(tr').kernel, p) == Live(Last(tr).kernel, p)
    ensures Last(tr').kernel.protectedPids == Last(tr).kernel.protectedPids
    ensures Last(tr').kernel.exits == Last(tr).kernel.exits
    ensures Last(tr').conns == Last(tr).conns && Last(tr').sweep == Last(tr).sweep
    decreases if Live(Last(tr).kernel, q) then Last(tr).kernel.procs[q].live else 0
  {
    tr' := tr;
    if Live(Last(tr).kernel, q) {
      PushIsTrace(tr, InKernel(LeaveLive(q)));
      tr' := AllLeave(Push(tr, InKernel(LeaveLive(q))), q);
    }
  }

  /** The sweep in progress, if any, runs to its end without deleting anything. */
  lemma FinishSweep(tr: Trace) returns (tr': Trace)
    requires ReuseSafeTrace(tr)
    ensures ReuseSafeTrace(tr') && tr'.states[0] == tr.states[0]
    ensures Last(tr').kernel == Last(tr).kernel && Last(tr').conns == Last(tr).conns && Last(tr').sweep.Idle?
    decreases match Last(tr).sweep case Idle => 0 case Sweeping(todo) => 2 * |todo| + 1
              case Condemned(_, todo) => 2 * |todo| + 2
  {
    tr' := tr;
    if !Last(tr).sweep.Idle? {
      var step := InSweep(if Last(tr).sweep.Sweeping? then Check(true) else Delete(false));
      PushIsTrace(tr, step);
      tr' := FinishSweep(Push(tr, step));
    }
  }

  /** A whole new sweep that finds `q` dead and deletes it. */
  lemma SweepOut(tr: Trace, q: Pid) returns (tr': Trace)
    requires ReuseSafeTrace(tr) && Last(tr).sweep.Idle?
    requires q in Last(tr).kernel.protectedPids && !Live(Last(tr).kernel, q)
    ensures ReuseSafeTrace(tr') && tr'.states[0] == tr.states[0]
    ensures Last(tr').kernel == Last(tr).kernel.(protectedPids := Last(tr).kernel.protectedPids - {q})
    ensures Last(tr').conns == Last(tr).conns
  {
    var steps := [InSweep(List([q])), InSweep(Check(false)), InSweep(Delete(true))];
    tr' := tr;
    for i := 0 to 3
      invariant ReuseSafeTrace(tr') && tr'.states[0] == tr.states[0]
      invariant Last(tr').conns == Last(tr).conns
      invariant Last(tr').sweep == if i == 0 then Idle else if i == 1 then Sweeping([q])
                                   else if i == 2 then Condemned(q, []) else Sweeping([])
      invariant Last(tr').kernel == if i < 3 then Last(tr).kernel
                                    else Last(tr).kernel.(protectedPids := Last(tr).kernel.protectedPids - {q})
    {
      PushIsTrace(tr', steps[i]);
      tr' := Push(tr', steps[i]);
    }
  }

  /** A handshake for a dead but readable owner of `q` that takes its entry down with it. */
  lemma HandshakeFails(tr: Trace, q: Pid) returns (tr': Trace)
    requires ReuseSafeTrace(tr) && q in Last(tr).kernel.procs && !Live(Last(tr).kernel, q)
    requires q in Last(tr).kernel.protectedPids
    ensures ReuseSafeTrace(tr') && tr'.states[0] == tr.states[0]
    ensures Last(tr').kernel.procs == Last(tr).kernel.procs && Last(tr').sweep == Last(tr).sweep
    ensures Last(tr').kernel.protectedPids == Last(tr).kernel.protectedPids - {q}
    ensures Last(tr').conns == Last(tr).conns + [Conn(q, Withheld)]
  {
    var c := |Last(tr).conns|;
    var steps := [Accept(q), Handshake(c, ReadStart(true)), Handshake(c, ProtectPID(true)),
                  Handshake(c, TrackPID(false, {})), Handshake(c, Recheck(false)), Handshake(c, Rollback(true))];
    var start := Last(tr).kernel.procs[q].start;
    var phases := [Matched, Snapshotted(start), Marked(start, true), Tracked(start, true), RollingBack(start),
                   Withheld];
    tr' := tr;
    for i := 0 to 6
      invariant ReuseSafeTrace(tr') && tr'.states[0] == tr.states[0]
      invariant Last(tr').kernel.procs == Last(tr).kernel.procs && Last(tr').sweep == Last(tr).sweep
      invariant Last(tr').kernel.protectedPids ==
                if i < 6 then Last(tr).kernel.protectedPids else Last(tr).kernel.protectedPids - {q}
      invariant Last(tr').conns == Last(tr).conns + if i == 0 then [] else [Conn(q, phases[i - 1])]
    {
      PushIsTrace(tr', steps[i]);
      tr' := Push(tr', steps[i]);
    }
  }

  /** While an exit event or an unfinished handshake names `pid`, the sweep is free to delete `q`. */
  lemma RoomBySweep(tr: Trace, pid: Pid, q: Pid) returns (tr': Trace)
    requires ReuseSafeTrace(tr) && q in Last(tr).kernel.protectedPids && q != pid
    requires NamesEarlierOwner(Last(tr), pid) && !(Last(tr).sweep.Condemned? && Last(tr).sweep.pid == pid)
    ensures ReuseSafeTrace(tr') && tr'.states[0] == tr.states[0]
    ensures Spares(Last(tr), Last(tr'), pid) && NamesEarlierOwner(Last(tr'), pid)
    ensures q !in Last(tr').kernel.protectedPids
  {
    tr' := AllLeave(tr, q);
    tr' := FinishSweep(tr');
    tr' := SweepOut(tr', q);
  }

  lemma RoomByHandshake(tr: Trace, pid: Pid, q: Pid) returns (tr': Trace)
    requires ReuseSafeTrace(tr) && q in Last(tr).kernel.protectedPids && q != pid && q in Last(tr).kernel.procs
    ensures ReuseSafeTrace(tr') && tr'.states[0] == tr.states[0]
    ensures Spares(Last(tr), Last(tr'), pid) && Last(tr').sweep == Last(tr).sweep
    ensures q !in Last(tr').kernel.protectedPids
  {
    tr' := AllLeave(tr, q);
    tr' := HandshakeFails(tr', q);
  }

  lemma RoomByNewOwner(tr: Trace, pid: Pid, q: Pid) returns (tr': Trace)
    requires ReuseSafeTrace(tr) && q in Last(tr).kernel.protectedPids && q != pid
    requires q !in Last(tr).kernel.procs && !NamesEarlierOwner(Last(tr), q)
    ensures ReuseSafeTrace(tr') && tr'.states[0] == tr.states[0]
    ensures Spares(Last(tr), Last(tr'), pid) && Last(tr').sweep == Last(tr).sweep
    ensures q !in Last(tr').kernel.protectedPids
  {
    var k := Last(tr).kernel;
    var step := InKernel(Start(q, if q in k.lastStart then k.lastStart[q] + 1 else 0));
    PushIsTrace(tr, step);
    tr' := RoomByHandshake(Push(tr, step), pid, q);
  }

  /** While the sweep is about to delete `pid`, `q` goes by what names it, or else by a new owner's
      failed handshake. */
  lemma RoomWithoutSweep(tr: Trace, pid: Pid, q: Pid) returns (tr': Trace)
    requires ReuseSafeTrace(tr) && q in Last(tr).kernel.protectedPids && q != pid
    requires Last(tr).sweep.Condemned? && Last(tr).sweep.pid == pid
    ensures ReuseSafeTrace(tr') && tr'.states[0] == tr.states[0]
    ensures Spares(Last(tr), Last(tr'), pid) && Last(tr').sweep == Last(tr).sweep
    ensures q !in Last(tr').kernel.protectedPids
  {
    var s := Last(tr);
    if q in s.kernel.procs {
      tr' := RoomByHandshake(tr, pid, q);
    } else if i :| 0 <= i < |s.kernel.exits| && s.kernel.exits[i] == q {
      tr' := DeliverRun(tr, q, i);
    } else if c :| 0 <= c < |s.conns| && DanglingOn(s.conns[c], q) {
      tr' := RollbackRun(tr, c, q);
    } else {
      tr' := RoomByNewOwner(tr, pid, q);
    }
  }

  lemma MakeRoom(tr: Trace, pid: Pid, q: Pid) returns (tr': Trace)
    requires ReuseSafeTrace(tr) && q in Last(tr).kernel.protectedPids && q != pid && NamesEarlierOwner(Last(tr), pid)
    ensures ReuseSafeTrace(tr') && tr'.states[0] == tr.states[0]
    ensures Spares(Last(tr), Last(tr'), pid) && NamesEarlierOwner(Last(tr'), pid)
    ensures q !in Last(tr').kernel.protectedPids
  {
    if Last(tr).sweep.Condemned? && Last(tr).sweep.pid == pid {
      tr' := RoomWithoutSweep(tr, pid, q);
    } else {
      tr' := RoomBySweep(tr, pid, q);
    }
  }

  /** A run at whose end the map takes `pid`, with everything that names it still in place. */
  lemma ReachRoom(s: State, pid: Pid) returns (tr: Trace)
    requires Fits(s.kernel) && NamesEarlierOwner(s, pid)
    ensures ReuseSafeTrace(tr) && tr.states[0] == s
    ensures Spares(s, Last(tr), pid) && NamesEarlierOwner(Last(tr), pid)
    ensures CanInsert(Last(tr).kernel.protectedPids, pid)
  {
    tr := Singleton(s);
    if !CanInsert(s.kernel.protectedPids, pid) {
      var q :| q in s.kernel.protectedPids;
      tr := MakeRoom(tr, pid, q);
      SubsetSize(Last(tr).kernel.protectedPids, s.kernel.protectedPids - {q});
    }
  }

  // ----- Exactness

  /** Whatever names a live `pid` on account of an earlier owner can cost it its protection. */
  lemma NamedLosesProtection(s: State, pid: Pid) returns (tr: Trace)
    requires Fits(s.kernel) && Live(s.kernel, pid) && NamesEarlierOwner(s, pid)
    requires forall c :: 0 <= c < |s.conns| && DanglingOn(s.conns[c], pid) ==>
                           Owner(s.kernel, pid) != Some(s.conns[c].phase.before)
    ensures ReuseSafeTrace(tr) && tr.states[0] == s && !Persistent(Last(tr))
  {
    var tr1 := ReachRoom(s, pid);
    var tr2 := HandshakeRun(tr1, pid);
    tr := StaleRun(Last(tr1), tr2, pid);
  }

  /** Every continuation of the run after `pid` goes to a process started at `start` keeps the promise. */
  ghost predicate SurvivesReissue(s: State, pid: Pid, start: nat)
    requires KernelEnabled(s.kernel, Start(pid, start))
  {
    forall tr: Trace :: ReuseSafeTrace(tr) && tr.states[0] == Apply(s, InKernel(Start(pid, start))) ==>
      Persistent(Last(tr))
  }

  /** The reuse hypothesis is exact. From every reachable state, re-issuing a PID keeps the promise in
      every continuation if and only if nothing names the PID's earlier owner. */
  lemma {:induction false} ReissueSafeIffUnnamed(tr: Trace, requireProtection: bool, pid: Pid, start: nat)
    requires ReuseSafeTrace(tr) && tr.states[0] == Init(requireProtection)
    requires KernelEnabled(Last(tr).kernel, Start(pid, start))
    ensures SurvivesReissue(Last(tr), pid, start) <==> !NamesEarlierOwner(Last(tr), pid)
  {
    var s := Last(tr);
    TraceKeeps(tr, |tr.states| - 1);
    MapWithinCapacity(tr, requireProtection, |tr.states| - 1);
    var s1 := Apply(s, InKernel(Start(pid, start)));
    if !NamesEarlierOwner(s, pid) {
      StepKeeps(s, InKernel(Start(pid, start)));
      forall tr1: Trace | ReuseSafeTrace(tr1) && tr1.states[0] == s1 ensures Persistent(Last(tr1)) {
        TraceKeeps(tr1, |tr1.states| - 1);
        InvIsPersistent(Last(tr1));
      }
    } else {
      assert NamesEarlierOwner(s1, pid);
      forall c | 0 <= c < |s1.conns| && DanglingOn(s1.conns[c], pid)
        ensures Owner(s1.kernel, pid) != Some(s1.conns[c].phase.before)
      {
        assert ConnOk(s.kernel, s.conns[c]);
      }
      var tr1 := NamedLosesProtection(s1, pid);
    }
  }

  // ----- It does happen

  /** A process that execs and exits, with its exit event queued, leaves a free PID that is still named. */
  lemma NamedPidIsReachable(requireProtection: bool) returns (tr: Trace)
    ensures ReuseSafeTrace(tr) && tr.states[0] == Init(requireProtection)
    ensures KernelEnabled(Last(tr).kernel, Start(1, 1)) && NamesEarlierOwner(Last(tr), 1)
  {
    var steps := [InKernel(Start(1, 0)), InKernel(KernelStep.Exec(1, 0, {})), InKernel(LeaveLive(1)),
                  InKernel(ExitTracepoint(1, true, true)), InKernel(Reap(1))];
    tr := Singleton(Init(requireProtection));
    for i := 0 to 5
      invariant ReuseSafeTrace(tr) && tr.states[0] == Init(requireProtection)
      invariant Last(tr).conns == [] && Last(tr).sweep.Idle?
      invariant Last(tr).kernel.lastStart == if i == 0 then map[] else map[1 := 0]
      invariant Last(tr).kernel.procs ==
                if i == 0 || i == 5 then map[]
                else map[1 := Proc(0, if i < 3 then 1 else 0, if i == 3 then 1 else 0)]
      invariant Last(tr).kernel.exits == if i < 4 then [] else [1]
      invariant i == 2 || i == 3 ==> 1 in Last(tr).kernel.seen
    {
      PushIsTrace(tr, steps[i]);
      tr := Push(tr, steps[i]);
    }
  }

  /** Two runs joined by one more step. */
  function Joined(tr: Trace, step: Step, tr': Trace): Trace {
    Trace(tr.states + tr'.states, tr.steps + [step] + tr'.steps)
  }

  lemma JoinedIsTrace(tr: Trace, step: Step, tr': Trace)
    requires IsTrace(tr) && IsTrace(tr') && Enabled(Last(tr), step) && tr'.states[0] == Apply(Last(tr), step)
    ensures IsTrace(Joined(tr, step, tr')) && Last(Joined(tr, step, tr')) == Last(tr')
  {
    var all := Joined(tr, step, tr');
    forall i | 0 <= i < |all.steps| ensures StepAt(all, i) {
      if i < |tr.steps| {
        assert StepAt(tr, i);
      } else if i > |tr.steps| {
        assert StepAt(tr', i - |tr.states|);
      }
    }
  }

  /** Without the hypothesis the promise fails: a run from the start in which a live process that was
      answered Protected = true is not in the map. */
  lemma ReuseCanLoseProtection(requireProtection: bool) returns (tr: Trace)
    ensures IsTrace(tr) && tr.states[0] == Init(requireProtection) && !Persistent(Last(tr))
  {
    var before := NamedPidIsReachable(requireProtection);
    ReissueSafeIffUnnamed(before, requireProtection, 1, 1);
    var step := InKernel(Start(1, 1));
    var after: Trace :| ReuseSafeTrace(after) && after.states[0] == Apply(Last(before), step)
                        && !Persistent(Last(after));
    JoinedIsTrace(before, step, after);
    tr := Joined(before, step, after);
  }
}
