/** Serving one request (`internal/server/server.go`). */
module Server {
  import opened Options
  import opened KernelMaps
  import opened Registry
  import opened Identity
  import Lifecycle
  import Policy
  import Text

  datatype Config = Config(requireProtection: bool, identifyCallers: bool, requirePodIdentity: bool)

  /** How `main` derives the server's configuration from the policy. */
  function Wire(enforcing: bool, mode: Policy.IdentityMode): Config {
    Config(enforcing, mode != Policy.Disabled, mode == Policy.Required)
  }

  datatype Denial =
    | EmptyBinary | CallerUnidentified | CallerNotInPod | IdentityRefused | BindingRejected
    | AllUnresolved | CallerVanished | PidRecycled | ProtectionUnavailable

  datatype Response = Response(ok: bool, env: map<string, string>, isProtected: bool, error: Option<Denial>,
                               warnUnresolved: seq<string>, warnRejected: seq<string>)

  function Denied(why: Denial): Response {
    Response(false, map[], false, Some(why), [], [])
  }

  // ----- The requested binary

  function TrimSlashes(s: string): string {
    if s != "" && s[|s| - 1] == '/' then TrimSlashes(s[..|s| - 1]) else s
  }

  /** `filepath.Base` */
  function Base(path: string): string {
    if path == "" then "."
    else
      var trimmed := TrimSlashes(path);
      if trimmed == "" then "/"
      else
        var segs := Text.Split(trimmed, '/');
        segs[|segs| - 1]
  }

  lemma LastSegment(dir: string, name: string)
    requires '/' !in name
    ensures var segs := Text.Split(dir + "/" + name, '/'); segs[|segs| - 1] == name
    ensures Text.Split(name, '/') == [name]
  {
    Text.SplitConcat(dir, name, '/');
    Text.SplitAfter(name, "", '/');
    assert name + "" == name;
  }

  /** The base of a path is its last element, with or without a slash after it. */
  lemma BaseIsLastElement(dir: string, name: string)
    requires name != "" && '/' !in name
    ensures Base(name) == name && Base(dir + "/" + name) == name && Base(dir + "/" + name + "/") == name
  {
    LastSegment(dir, name);
    var path := dir + "/" + name;
    assert path[|path| - 1] == name[|name| - 1] && name[|name| - 1] in name;
    assert (path + "/")[..|path|] == path;
  }

  predicate AllSlashes(s: string) {
    forall i :: 0 <= i < |s| ==> s[i] == '/'
  }

  lemma {:induction false} TrimmedOfSlashes(s: string, slashes: string)
    requires AllSlashes(slashes) && (s == "" || s[|s| - 1] != '/')
    ensures TrimSlashes(s + slashes) == s
  {
    if slashes == "" {
      assert s + slashes == s;
    } else {
      assert (s + slashes)[..|s + slashes| - 1] == s + slashes[..|slashes| - 1];
      TrimmedOfSlashes(s, slashes[..|slashes| - 1]);
    }
  }

  /** `filepath.Base` on every path: the last element, any slashes after it aside; "/" if there are only
      slashes and "." for nothing. So a request names no binary exactly when its path is empty, all
      slashes, or ends in the element ".". */
  lemma BaseExactly(dir: string, name: string, slashes: string)
    requires '/' !in name && AllSlashes(slashes) && (dir == "" || dir[|dir| - 1] == '/')
    ensures name != "" ==> Base(dir + name + slashes) == name
    ensures name == "" && AllSlashes(dir) ==> Base(dir + slashes) == if dir + slashes == "" then "." else "/"
    ensures name != "" ==> (NamesABinary(dir + name + slashes) <==> name != ".")
    ensures AllSlashes(dir) ==> !NamesABinary(dir + slashes)
  {
    if name != "" {
      assert name[|name| - 1] in name;
      TrimmedOfSlashes(dir + name, slashes);
      if dir == "" {
        assert dir + name == name;
        LastSegment("", name);
      } else {
        assert dir + name == dir[..|dir| - 1] + "/" + name;
        LastSegment(dir[..|dir| - 1], name);
      }
      assert "/"[0] in "/" && name != "/";
    }
    if AllSlashes(dir) {
      TrimmedOfSlashes("", dir + slashes);
      assert "" + (dir + slashes) == dir + slashes;
    }
  }

  predicate NamesABinary(path: string) {
    path != "" && Base(path) != "." && Base(path) != "/"
  }

  // ----- The authorization decision

  /** What the identifier, if there is one, and the kernel turn out to say during a request. */
  datatype World = World(
    identified: Option<Identified>,
    startBefore: Option<nat>, insertOk: bool, trackOk: bool, evicted: set<Pid>,
    startAfter: Option<nat>, deleteOk: bool)

  function Who(cfg: Config, w: World): Identified {
    if !cfg.identifyCallers then Identified(NOBODY, false)
    else if w.identified.None? then Identified(NOBODY, true)
    else w.identified.value
  }

  datatype Decision = Deny(why: Denial) | StartUnchanged(unresolved: seq<string>) | Release(m: Match)

  function DecideMatch(cfg: Config, m: Match): Decision {
    if m.Empty() then StartUnchanged([])
    else if m.secrets == [] && m.refused != [] then Deny(IdentityRefused)
    else if m.secrets == [] && m.rejected != [] then Deny(BindingRejected)
    else if m.secrets == [] then
      if cfg.requireProtection then Deny(AllUnresolved) else StartUnchanged(m.unresolved)
    else Release(m)
  }

  function DecideFor(cfg: Config, bindings: seq<Binding>, binary: string, who: Identified): Decision {
    if !NamesABinary(binary) then Deny(EmptyBinary)
    else if cfg.requirePodIdentity && who.failed then Deny(CallerUnidentified)
    else if cfg.requirePodIdentity && who.caller.pod.None? then Deny(CallerNotInPod)
    else DecideMatch(cfg, Resolve(bindings, Base(binary), who.caller))
  }

  function Decide(cfg: Config, bindings: seq<Binding>, binary: string, w: World): Decision {
    DecideFor(cfg, bindings, binary, Who(cfg, w))
  }

  // ----- The response

  /** The environment a list of secrets builds: a later secret of the same name wins. */
  function EnvOf(secrets: seq<Secret>): map<string, string> {
    if secrets == [] then map[]
    else EnvOf(secrets[..|secrets| - 1])[secrets[|secrets| - 1].name := secrets[|secrets| - 1].value]
  }

  /** The last part of `handle`, for secrets that are to be released: `before` and `after` are the
      two start-time reads around ProtectPID, `marked` whether that succeeded. */
  function Answer(cfg: Config, m: Match, before: Option<nat>, marked: bool, after: Option<nat>): Response {
    if before.None? then Denied(CallerVanished)
    else if after != before then Denied(PidRecycled)
    else if !marked && cfg.requireProtection then Denied(ProtectionUnavailable)
    else Response(true, EnvOf(m.secrets), marked, None, m.unresolved, m.rejected)
  }

  function Reply(cfg: Config, d: Decision, before: Option<nat>, marked: bool, after: Option<nat>): Response {
    match d
    case Deny(why) => Denied(why)
    case StartUnchanged(unresolved) => Response(true, map[], false, None, unresolved, [])
    case Release(m) => Answer(cfg, m, before, marked, after)
  }

  function Respond(cfg: Config, bindings: seq<Binding>, binary: string, w: World, marked: bool): Response {
    Reply(cfg, Decide(cfg, bindings, binary, w), w.startBefore, marked, w.startAfter)
  }

  class Server {
    const cfg: Config
    const registry: Store
    const manager: Manager

    constructor (cfg: Config, registry: Store, manager: Manager)
      ensures this.cfg == cfg && this.registry == registry && this.manager == manager
    {
      this.cfg, this.registry, this.manager := cfg, registry, manager;
    }

    /** Where a request gets as far as ProtectPID, whether the map took the PID. */
    ghost predicate CanMark(pid: Pid, w: World)
      reads manager
    {
      manager.lsmLoaded && w.insertOk && CanInsert(manager.protectedPids, pid)
    }

    /** `handle` up to the point where secrets are known to be due. */
    method Authorize(binary: string, w: World) returns (d: Decision)
      ensures d == Decide(cfg, registry.bindings, binary, w)
      ensures d.Release? ==> d.m.secrets != []
    {
      var base := Base(binary);
      if binary == "" || base == "." || base == "/" { return Deny(EmptyBinary); }
      var who := Who(cfg, w);
      if cfg.requirePodIdentity {
        if who.failed { return Deny(CallerUnidentified); }
        if who.caller.pod.None? { return Deny(CallerNotInPod); }
      }
      var m := registry.Lookup(base, who.caller);
      if m.Empty() { return StartUnchanged([]); }
      if |m.secrets| == 0 && |m.refused| > 0 { return Deny(IdentityRefused); }
      if |m.secrets| == 0 && |m.rejected| > 0 { return Deny(BindingRejected); }
      if |m.secrets| == 0 {
        if cfg.requireProtection { return Deny(AllUnresolved); }
        return StartUnchanged(m.unresolved);
      }
      return Release(m);
    }

    /** The rest: snapshot, protect, track, re-read, roll back or reply. The PID is marked before the
        secrets leave, and only a recycled PID is unmarked again. */
    method Deliver(pid: Pid, m: Match, w: World) returns (resp: Response)
      requires manager.Valid() && m.secrets != []
      modifies manager`protectedPids, manager`seenPids
      ensures manager.Valid()
      ensures resp == Answer(cfg, m, w.startBefore, old(CanMark(pid, w)), w.startAfter)
      ensures resp.ok ==> resp.env != map[] && (cfg.requireProtection ==> resp.isProtected)
      ensures resp.ok || resp.error == Some(ProtectionUnavailable) ==>
                manager.protectedPids == Protect(old(manager.protectedPids), pid, resp.isProtected)
      ensures resp.error == Some(PidRecycled) ==>
                manager.protectedPids == (if manager.lsmLoaded && w.deleteOk then old(manager.protectedPids) - {pid}
                                          else Protect(old(manager.protectedPids), pid, old(CanMark(pid, w))))
      ensures resp.error == Some(CallerVanished) ==>
                manager.protectedPids == old(manager.protectedPids) && manager.seenPids == old(manager.seenPids)
      ensures resp.error != Some(CallerVanished) ==>
                manager.seenPids == (if manager.execLoaded && w.trackOk
                                     then SeenPut(old(manager.seenPids), pid, 0, w.evicted) else old(manager.seenPids))
    {
      if w.startBefore.None? { return Denied(CallerVanished); }
      var marked := manager.ProtectPID(pid, w.insertOk);
      var _ := manager.TrackPID(pid, w.trackOk, w.evicted);
      if w.startAfter != w.startBefore {
        var _ := manager.UnprotectPID(pid, w.deleteOk);
        return Denied(PidRecycled);
      }
      if !marked && cfg.requireProtection { return Denied(ProtectionUnavailable); }
      var env := BuildEnv(m.secrets);
      assert m.secrets[|m.secrets| - 1].name in env;
      return Response(true, env, marked, None, m.unresolved, m.rejected);
    }

    method BuildEnv(secrets: seq<Secret>) returns (env: map<string, string>)
      ensures env == EnvOf(secrets)
    {
      env := map[];
      for i := 0 to |secrets|
        invariant env == EnvOf(secrets[..i])
      {
        assert secrets[..i + 1][..i] == secrets[..i];
        env := env[secrets[i].name := secrets[i].value];
      }
      assert secrets[..|secrets|] == secrets;
    }

    /** Nothing reaches the maps unless secrets are about to be released to a process that exists;
        and secrets that are released under required protection leave the PID in the map. */
    method Handle(pid: Pid, binary: string, w: World) returns (resp: Response)
      requires manager.Valid()
      modifies manager`protectedPids, manager`seenPids
      ensures manager.Valid()
      ensures resp == Respond(cfg, registry.bindings, binary, w, old(CanMark(pid, w)))
      ensures resp.env == map[] && resp.error != Some(PidRecycled) && resp.error != Some(ProtectionUnavailable) ==>
                manager.protectedPids == old(manager.protectedPids) && manager.seenPids == old(manager.seenPids)
      ensures resp.env != map[] ==> manager.protectedPids == Protect(old(manager.protectedPids), pid, resp.isProtected)
      ensures resp.env != map[] && cfg.requireProtection ==> resp.isProtected
      ensures resp.env != map[] && manager.execLoaded && w.trackOk ==>
                manager.seenPids == SeenPut(old(manager.seenPids), pid, 0, w.evicted)
      ensures resp.error == Some(PidRecycled) && manager.lsmLoaded && w.deleteOk ==>
                manager.protectedPids == old(manager.protectedPids) - {pid}
    {
      var d := Authorize(binary, w);
      match d {
        case Deny(why) => resp := Denied(why);
        case StartUnchanged(unresolved) => resp := Response(true, map[], false, None, unresolved, []);
        case Release(m) => resp := Deliver(pid, m, w);
      }
      assert resp == Reply(cfg, d, w.startBefore, old(CanMark(pid, w)), w.startAfter);
    }
  }

  // ----- When each decision is taken, over the bindings

  /** The caller as the identifier reported it, or nobody. */
  function CallerOf(cfg: Config, w: World): Caller {
    if cfg.identifyCallers && w.identified.Some? then w.identified.value.caller else NOBODY
  }

  predicate IdentityFailed(cfg: Config, w: World) {
    cfg.identifyCallers && (w.identified.None? || w.identified.value.failed)
  }

  /** The request names a binary and, where that is required, comes from an identified pod. */
  predicate Passes(cfg: Config, binary: string, w: World) {
    NamesABinary(binary) && (cfg.requirePodIdentity ==> !IdentityFailed(cfg, w) && CallerOf(cfg, w).pod.Some?)
  }

  ghost predicate Any(bindings: seq<Binding>, binary: string, c: Caller, fate: Fate) {
    exists b :: b in bindings && FateOf(b, binary, c) == fate
  }

  ghost predicate AnySecrets(bindings: seq<Binding>, binary: string, c: Caller) {
    exists b :: b in bindings && FateOf(b, binary, c) == Admitted && b.secrets != []
  }

  ghost predicate AnyUnresolved(bindings: seq<Binding>, binary: string, c: Caller) {
    exists b :: b in bindings && FateOf(b, binary, c) == Admitted && b.unresolved != []
  }

  lemma MatchParts(bindings: seq<Binding>, binary: string, c: Caller)
    ensures var m := Resolve(bindings, binary, c);
            && (m.secrets != [] <==> AnySecrets(bindings, binary, c))
            && (m.unresolved != [] <==> AnyUnresolved(bindings, binary, c))
            && (m.refused != [] <==> Any(bindings, binary, c, Refused))
            && (m.rejected != [] <==> Any(bindings, binary, c, Rejected))
  {
    var admitted := Having(bindings, binary, c, Admitted);
    forall b ensures b in admitted <==> b in bindings && FateOf(b, binary, c) == Admitted {
      HavingHas(bindings, binary, c, Admitted, b);
    }
    SecretsOfEmpty(admitted);
    SortedSize(UnresolvedOf(admitted));
    HavingNone(bindings, binary, c, Refused);
    HavingNone(bindings, binary, c, Rejected);
  }

  lemma DecidedOnMatch(cfg: Config, m: Match)
    ensures var d, none := DecideMatch(cfg, m), m.secrets == [];
            && (d.Release? <==> !none)
            && (d == Deny(IdentityRefused) <==> none && m.refused != [])
            && (d == Deny(BindingRejected) <==> none && m.refused == [] && m.rejected != [])
            && (d == Deny(AllUnresolved) <==>
                none && m.refused == [] && m.rejected == [] && m.unresolved != [] && cfg.requireProtection)
            && (d.StartUnchanged? <==>
                none && m.refused == [] && m.rejected == [] && (m.unresolved != [] ==> !cfg.requireProtection))
            && (d.Deny? ==> d.why in {IdentityRefused, BindingRejected, AllUnresolved})
            && (d.Release? ==> d.m == m) && (d.StartUnchanged? ==> d.unresolved == m.unresolved)
  {
  }

  lemma DecidedAtTheGate(cfg: Config, bindings: seq<Binding>, binary: string, w: World)
    ensures Decide(cfg, bindings, binary, w) ==
            if !NamesABinary(binary) then Deny(EmptyBinary)
            else if cfg.requirePodIdentity && IdentityFailed(cfg, w) then Deny(CallerUnidentified)
            else if cfg.requirePodIdentity && CallerOf(cfg, w).pod.None? then Deny(CallerNotInPod)
            else DecideMatch(cfg, Resolve(bindings, Base(binary), CallerOf(cfg, w)))
  {
  }

  /** Every outcome of the decision, exactly. Secrets are due if some binding admits the caller and has any,
      whatever the other bindings say; only when none has does a refused binding, then a rejected one,
      then an unreadable one decide. */
  lemma DecidedExactly(cfg: Config, bindings: seq<Binding>, binary: string, w: World)
    ensures var d, name, c := Decide(cfg, bindings, binary, w), Base(binary), CallerOf(cfg, w);
            var pass, secrets := Passes(cfg, binary, w), AnySecrets(bindings, name, c);
            var refused, rejected := Any(bindings, name, c, Refused), Any(bindings, name, c, Rejected);
            var unresolved := AnyUnresolved(bindings, name, c);
            && (d == Deny(EmptyBinary) <==> !NamesABinary(binary))
            && (d == Deny(CallerUnidentified) <==>
                NamesABinary(binary) && cfg.requirePodIdentity && IdentityFailed(cfg, w))
            && (d == Deny(CallerNotInPod) <==>
                NamesABinary(binary) && cfg.requirePodIdentity && !IdentityFailed(cfg, w) && c.pod.None?)
            && (d.Release? <==> pass && secrets)
            && (d == Deny(IdentityRefused) <==> pass && !secrets && refused)
            && (d == Deny(BindingRejected) <==> pass && !secrets && !refused && rejected)
            && (d == Deny(AllUnresolved) <==>
                pass && !secrets && !refused && !rejected && unresolved && cfg.requireProtection)
            && (d.StartUnchanged? <==>
                pass && !secrets && !refused && !rejected && (unresolved ==> !cfg.requireProtection))
            && (d.Release? ==> d.m == Resolve(bindings, name, c))
            && (d.StartUnchanged? ==> d.unresolved == Resolve(bindings, name, c).unresolved)
  {
    DecidedAtTheGate(cfg, bindings, binary, w);
    DecidedOnMatch(cfg, Resolve(bindings, Base(binary), CallerOf(cfg, w)));
    MatchParts(bindings, Base(binary), CallerOf(cfg, w));
  }

  lemma AnsweredOnDecision(cfg: Config, d: Decision, before: Option<nat>, marked: bool, after: Option<nat>)
    ensures var resp := Reply(cfg, d, before, marked, after);
            && (resp.ok <==> resp.error == None)
            && (d.Deny? ==> resp.error == Some(d.why))
            && (d.StartUnchanged? ==> resp == Response(true, map[], false, None, d.unresolved, []))
            && (d.Release? ==>
                  && (resp.ok <==> before.Some? && after == before && (marked || !cfg.requireProtection))
                  && (resp.error == Some(CallerVanished) <==> before == None)
                  && (resp.error == Some(PidRecycled) <==> before.Some? && after != before)
                  && (resp.ok ==>
                        resp == Response(true, EnvOf(d.m.secrets), marked, None, d.m.unresolved, d.m.rejected)))
            && (!resp.ok ==> resp == Response(false, map[], false, resp.error, [], []))
  {
  }

  /** And what becomes of a decision: secrets leave exactly when they are due, the process still is the one
      first seen, and it was marked or need not be. */
  lemma AnsweredExactly(cfg: Config, bindings: seq<Binding>, binary: string, w: World, marked: bool)
    ensures var d, resp := Decide(cfg, bindings, binary, w), Respond(cfg, bindings, binary, w, marked);
            && (resp.ok <==> resp.error == None)
            && (d.Deny? ==> resp.error == Some(d.why))
            && (d.StartUnchanged? ==> resp == Response(true, map[], false, None, d.unresolved, []))
            && (d.Release? ==>
                  && (resp.ok <==> w.startBefore.Some? && w.startAfter == w.startBefore
                                   && (marked || !cfg.requireProtection))
                  && (resp.error == Some(CallerVanished) <==> w.startBefore == None)
                  && (resp.error == Some(PidRecycled) <==> w.startBefore.Some? && w.startAfter != w.startBefore)
                  && (resp.ok ==>
                        resp == Response(true, EnvOf(d.m.secrets), marked, None, d.m.unresolved, d.m.rejected)))
            && (!resp.ok ==> resp == Response(false, map[], false, resp.error, [], []))
  {
    AnsweredOnDecision(cfg, Decide(cfg, bindings, binary, w), w.startBefore, marked, w.startAfter);
  }

  // ----- What a response means

  /** Entry `i` is the last secret of its name. */
  predicate LastOfName(secrets: seq<Secret>, i: int) {
    0 <= i < |secrets| && forall j :: i < j < |secrets| ==> secrets[j].name != secrets[i].name
  }

  /** Each name is released once, with the value of the last secret that carries it. */
  lemma {:induction false} EnvHasLastValues(secrets: seq<Secret>, n: string)
    ensures n in EnvOf(secrets) <==> exists i :: LastOfName(secrets, i) && secrets[i].name == n
    ensures forall i :: LastOfName(secrets, i) && secrets[i].name == n ==> EnvOf(secrets)[n] == secrets[i].value
  {
    if secrets != [] {
      var k := |secrets| - 1;
      EnvHasLastValues(secrets[..k], n);
      if secrets[k].name == n {
        assert LastOfName(secrets, k);
      } else {
        forall i ensures LastOfName(secrets, i) && secrets[i].name == n <==>
                         LastOfName(secrets[..k], i) && secrets[..k][i].name == n
        {
        }
      }
    }
  }

  /** Whatever is read and written in between, the phases of the step machine end in Served exactly
      when `handle` answers with the secrets, and with the same protection. `k0`, `k1`, `k3` are the
      kernel at the first read, at ProtectPID and at the second read. */
  lemma MachinePhasesAreHandle(cfg: Config, m: Match, pid: Pid,
                               k0: Lifecycle.Kernel, k1: Lifecycle.Kernel, k3: Lifecycle.Kernel,
                               z0: bool, kernelOk: bool, track: Lifecycle.HandStep, z3: bool, deleteOk: bool)
    requires track.TrackPID?
    ensures var before, after := Lifecycle.StartTime(k0, pid, z0), Lifecycle.StartTime(k3, pid, z3);
            var marked := kernelOk && CanInsert(k1.protectedPids, pid);
            var resp := Answer(cfg, m, before, marked, after);
            var req := cfg.requireProtection;
            var c0 := Lifecycle.Conn(pid, Lifecycle.Matched);
            var p1 := Lifecycle.HandPhase(k0, req, c0, Lifecycle.ReadStart(z0));
            if p1.Withheld? then resp == Denied(CallerVanished)
            else
              var p2 := Lifecycle.HandPhase(k1, req, c0.(phase := p1), Lifecycle.ProtectPID(kernelOk));
              var p3 := Lifecycle.HandPhase(k1, req, c0.(phase := p2), track);
              var p4 := Lifecycle.HandPhase(k3, req, c0.(phase := p3), Lifecycle.Recheck(z3));
              if p4.RollingBack? then resp == Denied(PidRecycled)
              else
                var p5 := Lifecycle.HandPhase(k3, req, c0.(phase := p4), Lifecycle.Reply);
                if p5.Withheld? then resp == Denied(ProtectionUnavailable)
                else p5 == Lifecycle.Served(before.value, marked)
                     && resp == Response(true, EnvOf(m.secrets), marked, None, m.unresolved, m.rejected)
  {
  }
}
