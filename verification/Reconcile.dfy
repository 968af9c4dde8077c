/** The periodic sweep of the protected map (`internal/reconcile/reconcile.go`). */
module Reconcile {
  import opened Options
  import opened Widths
  import opened KernelMaps

  /** What a sweep leaves: every entry whose process is alive, and dead entries whose delete failed. */
  function AfterSweep(protectedPids: set<Pid>, alive: set<Pid>, stuck: set<Pid>): set<Pid> {
    set p | p in protectedPids && (p in alive || p in stuck)
  }

  lemma KeepsTheLive(protectedPids: set<Pid>, alive: set<Pid>, stuck: set<Pid>)
    ensures var after := AfterSweep(protectedPids, alive, stuck);
            && protectedPids * alive <= after <= protectedPids && protectedPids * stuck <= after
            && after <= alive + stuck
  {
  }

  /** One tick of the sweep loop: the map as the rest of the agent left it, and the sweep's luck. */
  datatype Tick = Tick(before: set<Pid>, alive: set<Pid>, stuck: set<Pid>, listOk: bool)

  /** With no LSM loaded there is no map, and nothing is dropped. */
  function Dropped(loaded: bool, t: Tick): nat {
    if loaded && t.listOk then |t.before - AfterSweep(t.before, t.alive, t.stuck)| else 0
  }

  function TotalDropped(loaded: bool, ticks: seq<Tick>): nat {
    if ticks == [] then 0 else TotalDropped(loaded, ticks[..|ticks| - 1]) + Dropped(loaded, ticks[|ticks| - 1])
  }

  lemma AddMod(a: nat, b: nat)
    ensures (a % TWO_64 + b) % TWO_64 == (a + b) % TWO_64
  {
  }

  /** Dropping a subset leaves the difference of the sizes. */
  lemma DropSize(before: set<Pid>, after: set<Pid>)
    requires after <= before
    ensures |before - after| == |before| - |after|
  {
  }

  class Reconciler {
    const store: Manager
    var reclaimed: nat

    ghost predicate Valid()
      reads this, store
    {
      store.Valid() && reclaimed < TWO_64
    }

    constructor (store: Manager)
      requires store.Valid()
      ensures this.store == store && reclaimed == 0 && Valid()
    {
      this.store, reclaimed := store, 0;
    }

    /** The loop over the listed PIDs. Returns how many were deleted. */
    method DropDead(pids: seq<Pid>, alive: set<Pid>, stuck: set<Pid>) returns (count: nat)
      requires store.Valid() && forall p: Pid :: p in pids <==> p in store.protectedPids
      requires forall i, j :: 0 <= i < j < |pids| ==> pids[i] != pids[j]
      modifies store`protectedPids
      ensures store.Valid() && store.protectedPids == AfterSweep(old(store.protectedPids), alive, stuck)
      ensures count == |old(store.protectedPids)| - |store.protectedPids|
    {
      count := 0;
      ghost var before := store.protectedPids;
      for i := 0 to |pids|
        invariant store.Valid() && store.protectedPids <= before
        invariant forall p :: p in before ==> (p in store.protectedPids <==> p in alive || p in stuck || p in pids[i..])
        invariant count == |before| - |store.protectedPids|
      {
        var pid := pids[i];
        assert pids[i..] == [pid] + pids[i + 1..];
        if pid in alive { continue; }
        var ok := store.UnprotectPID(pid, pid !in stuck);
        if !ok { continue; }
        count := count + 1;
      }
      assert store.protectedPids == AfterSweep(before, alive, stuck);
    }

    /** `alive` is the liveness of every PID, fixed while the sweep runs; `stuck` are the PIDs whose
        delete fails. Nothing here consults `seen_pids`. */
    method Sweep(alive: set<Pid>, stuck: set<Pid>, listOk: bool) returns (removed: Option<nat>)
      requires Valid()
      modifies this`reclaimed, store`protectedPids
      ensures Valid()
      ensures removed.None? <==> store.lsmLoaded && !listOk
      ensures removed.None? ==> store.protectedPids == old(store.protectedPids) && reclaimed == old(reclaimed)
      ensures removed.Some? ==> store.protectedPids == AfterSweep(old(store.protectedPids), alive, stuck)
      ensures old(store.protectedPids) * alive <= store.protectedPids <= old(store.protectedPids)
      ensures old(store.protectedPids) * stuck <= store.protectedPids
      ensures removed.Some? ==> store.protectedPids <= alive + stuck
      ensures removed.Some? ==> removed.value == |old(store.protectedPids)| - |store.protectedPids|
      ensures removed.Some? ==> reclaimed == (old(reclaimed) + removed.value) % TWO_64
    {
      var listed := store.ListProtectedPIDs(listOk);
      if listed.None? { return None; }
      ghost var before := store.protectedPids;
      var count := DropDead(listed.value, alive, stuck);
      KeepsTheLive(before, alive, stuck);
      if count > 0 {
        reclaimed := (reclaimed + count) % TWO_64;
      }
      return Some(count);
    }

    /** One tick finds the map as the rest of the agent left it. */
    method OnTick(tick: Tick)
      requires Valid()
      modifies this`reclaimed, store`protectedPids
      ensures Valid() && reclaimed == (old(reclaimed) + Dropped(store.lsmLoaded, tick)) % TWO_64
    {
      if store.lsmLoaded { store.protectedPids := tick.before; }
      var removed := Sweep(tick.alive, tick.stuck, tick.listOk);
      DropSize(tick.before, AfterSweep(tick.before, tick.alive, tick.stuck));
    }

    /** The sweep loop over any series of ticks: the counter is the total drop, modulo 2^64. */
    method Run(ticks: seq<Tick>)
      requires Valid()
      modifies this`reclaimed, store`protectedPids
      ensures Valid() && reclaimed == (old(reclaimed) + TotalDropped(store.lsmLoaded, ticks)) % TWO_64
    {
      for i := 0 to |ticks|
        invariant Valid()
        invariant reclaimed == (old(reclaimed) + TotalDropped(store.lsmLoaded, ticks[..i])) % TWO_64
      {
        AddMod(old(reclaimed) + TotalDropped(store.lsmLoaded, ticks[..i]), Dropped(store.lsmLoaded, ticks[i]));
        OnTick(ticks[i]);
        assert ticks[..i + 1][..i] == ticks[..i];
      }
      assert ticks[..|ticks|] == ticks;
    }
  }
}
