/** The protection lifecycle as a step machine: process start and exit, the tracepoints, the
    exit-event handler, the socket handshakes and the sweep, interleaved in any order. */
module Lifecycle {
  import opened Options
  import opened KernelMaps

  /** The process that currently owns a PID. `live` is `signal->live`; `exiting` counts threads
      that have left it but whose exit tracepoint has not fired yet. */
  datatype Proc = Proc(start: nat, live: nat, exiting: nat)

  datatype Kernel = Kernel(
    procs: map<Pid, Proc>,
    lastStart: map<Pid, nat>,      // start time of the newest owner each PID ever had
    protectedPids: set<Pid>,
    seen: map<Pid, nat>,
    exits: seq<Pid>,               // exit events queued for user space
    entries: map<Pid, nat>,        // seen_pids entries ever created, per PID
    emitted: map<Pid, nat>)        // exit events ever queued, per PID

  /** Where one connection's `handle` call stands once its caller has been identified and matched, which
      the step `Accept` stands for. */
  datatype Phase =
    | Matched
    | Snapshotted(before: nat)
    | Marked(before: nat, ok: bool)
    | Tracked(before: nat, ok: bool)
    | Confirmed(before: nat, ok: bool)
    | RollingBack(before: nat)
    | Served(before: nat, ok: bool)
    | Withheld

  datatype Conn = Conn(pid: Pid, phase: Phase)

  datatype Sweep = Idle | Sweeping(todo: seq<Pid>) | Condemned(pid: Pid, todo: seq<Pid>)

  datatype State = State(requireProtection: bool, kernel: Kernel, conns: seq<Conn>, sweep: Sweep)

  /** What happens to processes, and to the maps and the event queue on their account. */
  datatype KernelStep =
    | Start(pid: Pid, start: nat)
    | Clone(pid: Pid)
    | LeaveLive(pid: Pid)
    | ExitTracepoint(pid: Pid, monitored: bool, reserved: bool)
    | Reap(pid: Pid)
    | Exec(pid: Pid, now: nat, evicted: set<Pid>)
    | DeliverExit(deleteOk: bool)

  /** The effects of `handle`, in order. */
  datatype HandStep =
    | ReadStart(zombieReadable: bool)
    | ProtectPID(kernelOk: bool)
    | TrackPID(kernelOk: bool, evicted: set<Pid>)
    | Recheck(zombieReadable: bool)
    | Rollback(deleteOk: bool)
    | Reply

  datatype SweepStep = List(pids: seq<Pid>) | Check(found: bool) | Delete(deleteOk: bool)

  datatype Step = InKernel(k: KernelStep) | Accept(pid: Pid) | Handshake(c: nat, h: HandStep) | InSweep(w: SweepStep)

  function Init(requireProtection: bool): State {
    State(requireProtection, Kernel(map[], map[], {}, map[], [], map[], map[]), [], Idle)
  }

  function Count(m: map<Pid, nat>, pid: Pid): nat {
    if pid in m then m[pid] else 0
  }

  function Owner(k: Kernel, pid: Pid): Option<nat> {
    if pid in k.procs then Some(k.procs[pid].start) else None
  }

  predicate Live(k: Kernel, pid: Pid) {
    pid in k.procs && k.procs[pid].live > 0
  }

  /** Reading `/proc/<pid>/stat`: never fails while the process has a live thread. */
  function StartTime(k: Kernel, pid: Pid, zombieReadable: bool): Option<nat> {
    if Live(k, pid) || zombieReadable then Owner(k, pid) else None
  }

  // ----- Kernel steps

  predicate KernelEnabled(k: Kernel, step: KernelStep) {
    match step
    case Start(pid, start) => pid !in k.procs && (pid in k.lastStart ==> k.lastStart[pid] < start)
    case Clone(pid) => Live(k, pid)
    case LeaveLive(pid) => Live(k, pid)
    case ExitTracepoint(pid, _, _) => pid in k.procs && k.procs[pid].exiting > 0
    case Reap(pid) => pid in k.procs && k.procs[pid].live == 0 && k.procs[pid].exiting == 0
    case Exec(pid, _, _) => Live(k, pid)
    case DeliverExit(_) => |k.exits| > 0
  }

  /** Put `pid` in `seen_pids`, counting the entry if it is a new one. */
  function Track(k: Kernel, pid: Pid, seen': map<Pid, nat>): Kernel {
    k.(seen := seen', entries := if pid in k.seen then k.entries else k.entries[pid := Count(k.entries, pid) + 1])
  }

  function Tracepoint(k: Kernel, pid: Pid, live: nat, monitored: bool, reserved: bool): Kernel {
    if !ReportsExit(k.seen, pid, Some(live)) then k
    else if !monitored || !reserved then k.(seen := k.seen - {pid})
    else k.(seen := k.seen - {pid}, exits := k.exits + [pid],
            emitted := k.emitted[pid := Count(k.emitted, pid) + 1])
  }

  function KernelApply(k: Kernel, step: KernelStep): Kernel
    requires KernelEnabled(k, step)
  {
    match step
    case Start(pid, start) =>
      k.(procs := k.procs[pid := Proc(start, 1, 0)], lastStart := k.lastStart[pid := start])
    case Clone(pid) => k.(procs := k.procs[pid := k.procs[pid].(live := k.procs[pid].live + 1)])
    case LeaveLive(pid) =>
      var p := k.procs[pid];
      k.(procs := k.procs[pid := p.(live := p.live - 1, exiting := p.exiting + 1)])
    case ExitTracepoint(pid, monitored, reserved) =>
      var p := k.procs[pid];
      Tracepoint(k.(procs := k.procs[pid := p.(exiting := p.exiting - 1)]), pid, p.live, monitored, reserved)
    case Reap(pid) => k.(procs := k.procs - {pid})
    case Exec(pid, now, evicted) => Track(k, pid, SeenAfterExec(k.seen, pid, now, evicted))
    case DeliverExit(deleteOk) =>
      k.(exits := k.exits[1..], protectedPids := Unprotect(k.protectedPids, k.exits[0], deleteOk))
  }

  // ----- Handshake steps: what one does to the kernel, and to its own connection

  predicate HandEnabled(phase: Phase, step: HandStep) {
    match step
    case ReadStart(_) => phase.Matched?
    case ProtectPID(_) => phase.Snapshotted?
    case TrackPID(_, _) => phase.Marked?
    case Recheck(_) => phase.Tracked?
    case Rollback(_) => phase.RollingBack?
    case Reply => phase.Confirmed?
  }

  function HandKernel(k: Kernel, pid: Pid, step: HandStep): Kernel {
    match step
    case ProtectPID(kernelOk) =>
      k.(protectedPids := Protect(k.protectedPids, pid, kernelOk && CanInsert(k.protectedPids, pid)))
    case TrackPID(kernelOk, evicted) =>
      if kernelOk then Track(k, pid, SeenPut(k.seen, pid, 0, evicted)) else k
    case Rollback(deleteOk) => k.(protectedPids := Unprotect(k.protectedPids, pid, deleteOk))
    case _ => k
  }

  function HandPhase(k: Kernel, requireProtection: bool, conn: Conn, step: HandStep): Phase
    requires HandEnabled(conn.phase, step)
  {
    match step
    case ReadStart(zombieReadable) =>
      var t := StartTime(k, conn.pid, zombieReadable);
      if t.Some? then Snapshotted(t.value) else Withheld
    case ProtectPID(kernelOk) => Marked(conn.phase.before, kernelOk && CanInsert(k.protectedPids, conn.pid))
    case TrackPID(_, _) => Tracked(conn.phase.before, conn.phase.ok)
    case Recheck(zombieReadable) =>
      if StartTime(k, conn.pid, zombieReadable) == Some(conn.phase.before)
      then Confirmed(conn.phase.before, conn.phase.ok)
      else RollingBack(conn.phase.before)
    case Rollback(_) => Withheld
    case Reply =>
      if !conn.phase.ok && requireProtection then Withheld else Served(conn.phase.before, conn.phase.ok)
  }

  // ----- Sweep steps

  /** Whether `/proc/<pid>` exists: certainly while the process has a live thread, and else perhaps, for a
      process not yet reaped or because some other process's thread has the number as its ID. */
  predicate StatFinds(k: Kernel, pid: Pid, found: bool) {
    Live(k, pid) || found
  }

  predicate SweepEnabled(k: Kernel, sweep: Sweep, step: SweepStep) {
    match step
    case List(pids) => sweep.Idle? && forall i :: 0 <= i < |pids| ==> pids[i] in k.protectedPids
    case Check(_) => sweep.Sweeping?
    case Delete(_) => sweep.Condemned?
  }

  function SweepApply(k: Kernel, sweep: Sweep, step: SweepStep): Sweep
    requires SweepEnabled(k, sweep, step)
  {
    match step
    case List(pids) => Sweeping(pids)
    case Check(found) =>
      if sweep.todo == [] then Idle
      else if StatFinds(k, sweep.todo[0], found) then Sweeping(sweep.todo[1..])
      else Condemned(sweep.todo[0], sweep.todo[1..])
    case Delete(_) => Sweeping(sweep.todo)
  }

  function SweepKernel(k: Kernel, sweep: Sweep, step: SweepStep): Kernel
    requires SweepEnabled(k, sweep, step)
  {
    if step.Delete? then k.(protectedPids := Unprotect(k.protectedPids, sweep.pid, step.deleteOk)) else k
  }

  // ----- The whole machine

  predicate Enabled(s: State, step: Step) {
    match step
    case InKernel(k) => KernelEnabled(s.kernel, k)
    case Accept(_) => true
    case Handshake(c, h) => c < |s.conns| && HandEnabled(s.conns[c].phase, h)
    case InSweep(w) => SweepEnabled(s.kernel, s.sweep, w)
  }

  function Apply(s: State, step: Step): State
    requires Enabled(s, step)
  {
    match step
    case InKernel(k) => s.(kernel := KernelApply(s.kernel, k))
    case Accept(pid) => s.(conns := s.conns + [Conn(pid, Matched)])
    case Handshake(c, h) =>
      var conn := s.conns[c];
      s.(kernel := HandKernel(s.kernel, conn.pid, h),
         conns := s.conns[c := conn.(phase := HandPhase(s.kernel, s.requireProtection, conn, h))])
    case InSweep(w) =>
      s.(kernel := SweepKernel(s.kernel, s.sweep, w), sweep := SweepApply(s.kernel, s.sweep, w))
  }

  /** A run: `steps[i]` takes `states[i]` to `states[i + 1]`. */
  datatype Trace = Trace(states: seq<State>, steps: seq<Step>)

  predicate StepAt(tr: Trace, i: nat) {
    && i < |tr.steps| && i + 1 < |tr.states|
    && Enabled(tr.states[i], tr.steps[i])
    && tr.states[i + 1] == Apply(tr.states[i], tr.steps[i])
  }

  ghost predicate IsTrace(tr: Trace) {
    && |tr.states| == |tr.steps| + 1
    && forall i :: 0 <= i < |tr.steps| ==> StepAt(tr, i)
  }

  function Last(tr: Trace): State
    requires |tr.states| > 0
  {
    tr.states[|tr.states| - 1]
  }

  /** A handshake that may still roll back, deleting its PID whoever owns it by then. */
  predicate Dangling(phase: Phase) {
    phase.Snapshotted? || phase.Marked? || phase.Tracked? || phase.RollingBack?
  }

  predicate DanglingOn(k: Conn, pid: Pid) {
    k.pid == pid && Dangling(k.phase)
  }

  /** Something may still delete `pid` from the protected map on account of an earlier owner: a
      queued exit event, a sweep's dead verdict, or a handshake between its two reads. */
  ghost predicate NamesEarlierOwner(s: State, pid: Pid) {
    || pid in s.kernel.exits
    || (s.sweep.Condemned? && s.sweep.pid == pid)
    || (exists c :: 0 <= c < |s.conns| && DanglingOn(s.conns[c], pid))
  }

  /** The hypothesis on PID reuse, which the code itself does not enforce. */
  ghost predicate ReuseSafe(s: State, step: Step) {
    step.InKernel? && step.k.Start? ==> !NamesEarlierOwner(s, step.k.pid)
  }

  ghost predicate ReuseSafeTrace(tr: Trace) {
    && IsTrace(tr)
    && forall i :: 0 <= i < |tr.steps| ==> ReuseSafe(tr.states[i], tr.steps[i])
  }

  /** This connection was answered with Protected = true and its process still has a live thread. */
  predicate HoldsSecrets(k: Kernel, conn: Conn) {
    conn.phase.Served? && conn.phase.ok && Live(k, conn.pid) && Owner(k, conn.pid) == Some(conn.phase.before)
  }

  /** The promise: such a process is in the protected map. */
  ghost predicate Persistent(s: State) {
    forall c :: 0 <= c < |s.conns| && HoldsSecrets(s.kernel, s.conns[c]) ==> s.conns[c].pid in s.kernel.protectedPids
  }
}
