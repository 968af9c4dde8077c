/** The two kernel maps the agent and the BPF programs share, and the two sides that
    write them: the user-space manager and the exec-monitor tracepoints. */
module KernelMaps {

  import opened Options
  import opened Widths

  type Pid = p: int | 0 <= p < TWO_32 witness 0

  /** Capacity of `protected_pids`, a plain hash: inserting a new key into a full map fails. */
  const MAX_PROTECTED := 4096

  /** An exec event for a PID seen less than this many nanoseconds ago is a duplicate. */
  const DEDUP_NS := 100_000_000

  // Every insertion into `protected_pids` writes 1, so the map is modelled by its key set.

  predicate CanInsert(protectedPids: set<Pid>, pid: Pid) {
    pid in protectedPids || |protectedPids| < MAX_PROTECTED
  }

  function Protect(protectedPids: set<Pid>, pid: Pid, ok: bool): set<Pid> {
    if ok then protectedPids + {pid} else protectedPids
  }

  function Unprotect(protectedPids: set<Pid>, pid: Pid, ok: bool): set<Pid> {
    if ok then protectedPids - {pid} else protectedPids
  }

  /** An insertion into `seen_pids`, an LRU hash: the kernel may evict some other entry. */
  function SeenPut(seen: map<Pid, nat>, pid: Pid, stamp: nat, evicted: set<Pid>): map<Pid, nat> {
    (seen - evicted)[pid := stamp]
  }

  /** Every other entry that was not evicted is there with its stamp, and no further one. */
  ghost predicate OthersKept(seen: map<Pid, nat>, seen': map<Pid, nat>, pid: Pid, evicted: set<Pid>) {
    forall p: Pid :: p != pid ==>
      && (p in seen' <==> p in seen && p !in evicted)
      && (p in seen' ==> p in seen && seen'[p] == seen[p])
  }

  /** An exec tracepoint refreshes the entry unless it is a duplicate. Timestamps are u64. */
  predicate IsDuplicate(seen: map<Pid, nat>, pid: Pid, now: nat) {
    pid in seen && (now - seen[pid]) % TWO_64 < DEDUP_NS
  }

  function SeenAfterExec(seen: map<Pid, nat>, pid: Pid, now: nat, evicted: set<Pid>): map<Pid, nat> {
    if IsDuplicate(seen, pid, now) then seen else SeenPut(seen, pid, now, evicted)
  }

  /** Whether the exiting task is the last of its group; an unreadable signal struct reads as last. */
  predicate ThreadGroupDead(live: Option<nat>) {
    live.None? || live.value == 0
  }

  /** Whether the exit tracepoint finds the whole group gone and its PID tracked. */
  predicate ReportsExit(seen: map<Pid, nat>, pid: Pid, live: Option<nat>) {
    ThreadGroupDead(live) && pid in seen
  }

  // ----- What these operations come to, entry by entry

  /** There is room for 4096 entries; putting in and taking out touch one entry, and only if they succeed. */
  lemma MapOperations(m: set<Pid>, pid: Pid)
    ensures CanInsert(m, pid) <==> pid in m || |m| < 4096
    ensures Protect(m, pid, true) == m + {pid} && Protect(m, pid, false) == m
    ensures Unprotect(m, pid, true) == m - {pid} && Unprotect(m, pid, false) == m
  {
  }

  /** A put writes its stamp and keeps every other entry that is not evicted. */
  lemma PutKeepsOthers(seen: map<Pid, nat>, pid: Pid, stamp: nat, evicted: set<Pid>)
    ensures var seen' := SeenPut(seen, pid, stamp, evicted);
            pid in seen' && seen'[pid] == stamp && OthersKept(seen, seen', pid, evicted)
  {
  }

  /** An exec within 100 ms of the stamp, in 64-bit time, leaves the map alone; any other stamps it anew. */
  lemma ExecStamps(seen: map<Pid, nat>, pid: Pid, now: nat, evicted: set<Pid>)
    ensures var seen' := SeenAfterExec(seen, pid, now, evicted);
            if pid in seen && (now - seen[pid]) % 0x1_0000_0000_0000_0000 < 100_000_000
            then IsDuplicate(seen, pid, now) && seen' == seen
            else !IsDuplicate(seen, pid, now) && pid in seen' && seen'[pid] == now
                 && OthersKept(seen, seen', pid, evicted)
  {
    PutKeepsOthers(seen, pid, now, evicted);
  }

  /** A tracked PID's exit is reported when no thread is live, or that cannot be told. */
  lemma ExitReported(seen: map<Pid, nat>, pid: Pid, live: Option<nat>)
    ensures ReportsExit(seen, pid, live) <==> pid in seen && live in {None, Some(0)}
  {
  }

  /** The user-space manager's view of the maps (`internal/bpf/loader.go`). */
  class Manager {
    var lsmLoaded: bool
    var execLoaded: bool
    var protectedPids: set<Pid>
    var seenPids: map<Pid, nat>

    /** A map that is not loaded holds nothing. */
    ghost predicate Valid()
      reads this
    {
      (!lsmLoaded ==> protectedPids == {}) && (!execLoaded ==> seenPids == map[])
    }

    constructor (lsm: bool, exec: bool)
      ensures Valid()
      ensures lsmLoaded == lsm && execLoaded == exec
      ensures protectedPids == {} && seenPids == map[]
    {
      lsmLoaded, execLoaded := lsm, exec;
      protectedPids, seenPids := {}, map[];
    }

    method ProtectPID(pid: Pid, kernelOk: bool) returns (ok: bool)
      modifies this`protectedPids
      ensures ok <==> lsmLoaded && kernelOk && CanInsert(old(protectedPids), pid)
      ensures ok ==> pid in protectedPids
      ensures protectedPids == Protect(old(protectedPids), pid, ok)
      ensures old(Valid()) ==> Valid()
    {
      if !lsmLoaded { return false; }
      if !kernelOk || (pid !in protectedPids && |protectedPids| >= MAX_PROTECTED) { return false; }
      protectedPids := protectedPids + {pid};
      return true;
    }

    /** Removing an absent key is not an error, and with no LSM there is nothing to remove. */
    method UnprotectPID(pid: Pid, kernelOk: bool) returns (ok: bool)
      modifies this`protectedPids
      ensures ok <==> !lsmLoaded || pid !in old(protectedPids) || kernelOk
      ensures protectedPids == Unprotect(old(protectedPids), pid, lsmLoaded && ok)
      ensures lsmLoaded && ok ==> pid !in protectedPids
      ensures old(Valid()) ==> Valid()
    {
      if !lsmLoaded { return true; }
      if pid !in protectedPids { return true; }
      if !kernelOk { return false; }
      protectedPids := protectedPids - {pid};
      return true;
    }

    method TrackPID(pid: Pid, kernelOk: bool, evicted: set<Pid>) returns (ok: bool)
      modifies this`seenPids
      ensures ok <==> execLoaded && kernelOk
      ensures seenPids == if ok then SeenPut(old(seenPids), pid, 0, evicted) else old(seenPids)
      ensures old(Valid()) ==> Valid()
    {
      if !execLoaded || !kernelOk { return false; }
      seenPids := (seenPids - evicted)[pid := 0];
      return true;
    }

    /** Map iteration: every protected PID once, in an order the kernel chooses. */
    method ListProtectedPIDs(kernelOk: bool) returns (pids: Option<seq<Pid>>)
      ensures pids.None? <==> lsmLoaded && !kernelOk
      ensures pids.Some? && !lsmLoaded ==> pids.value == []
      ensures pids.Some? && lsmLoaded ==> forall p: Pid :: p in pids.value <==> p in protectedPids
      ensures pids.Some? ==> forall i, j :: 0 <= i < j < |pids.value| ==> pids.value[i] != pids.value[j]
    {
      if !lsmLoaded { return Some([]); }
      if !kernelOk { return None; }
      var out: seq<Pid> := [];
      var rest := protectedPids;
      while rest != {}
        invariant rest <= protectedPids
        invariant forall p: Pid :: p in out <==> p in protectedPids && p !in rest
        invariant forall i, j :: 0 <= i < j < |out| ==> out[i] != out[j]
        decreases |rest|
      {
        var key :| key in rest;
        out := out + [key];
        rest := rest - {key};
      }
      return Some(out);
    }
  }

  datatype ExecEvent = Exec(pid: Pid) | Exit(pid: Pid)

  /** The agent's event handler (`handleExecEvent` in `cmd/main.go`): an exit event releases the PID
      without asking who owns it by now; an exec event touches no map. */
  method HandleExecEvent(event: ExecEvent, manager: Manager, kernelOk: bool)
    requires manager.Valid()
    modifies manager`protectedPids
    ensures manager.Valid()
    ensures event.Exec? ==> manager.protectedPids == old(manager.protectedPids)
    ensures event.Exit? ==> manager.protectedPids == Unprotect(old(manager.protectedPids), event.pid, kernelOk)
  {
    match event
    case Exec(_) =>
    case Exit(pid) => var _ := manager.UnprotectPID(pid, kernelOk);
  }

  /** The exec-monitor tracepoints (`bpf/exec_monitor.bpf.c`) over the same `seen_pids`. */
  class ExecMonitor {
    var seenPids: map<Pid, nat>
    var exits: seq<Pid>

    constructor ()
      ensures seenPids == map[] && exits == []
    {
      seenPids, exits := map[], [];
    }

    /** Either exec tracepoint, once its filters have let the event through. Returns whether an
        exec event was submitted. */
    method HandleExec(pid: Pid, now: nat, reserved: bool, evicted: set<Pid>) returns (sent: bool)
      modifies this`seenPids
      ensures seenPids == SeenAfterExec(old(seenPids), pid, now, evicted)
      ensures sent <==> reserved && !IsDuplicate(old(seenPids), pid, now)
      ensures pid in seenPids
    {
      if pid in seenPids {
        if (now - seenPids[pid]) % TWO_64 < DEDUP_NS { return false; }
      }
      seenPids := (seenPids - evicted)[pid := now];
      return reserved;
    }

    /** `sched_process_exit`: fires once per thread, after that thread left `signal->live`. */
    method HandleSchedProcessExit(pid: Pid, live: Option<nat>, monitored: bool, reserved: bool)
      modifies this
      ensures live == None || live == Some(0) ==> pid !in seenPids
      ensures seenPids == if ReportsExit(old(seenPids), pid, live) then old(seenPids) - {pid} else old(seenPids)
      ensures exits == if ReportsExit(old(seenPids), pid, live) && monitored && reserved
                       then old(exits) + [pid] else old(exits)
    {
      if live.Some? && live.value != 0 { return; }
      if pid !in seenPids { return; }
      seenPids := seenPids - {pid};
      if !monitored { return; }
      if !reserved { return; }
      exits := exits + [pid];
    }
  }
}
