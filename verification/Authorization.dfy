/** From the configuration string to the released secret. */
module Authorization {
  import opened Options
  import opened Registry
  import opened Identity
  import opened Server
  import LsmHooks
  import PodCache
  import Policy
  import Text

  lemma {:induction false} SecretComesFrom(bs: seq<Binding>, i: nat) returns (b: Binding, k: nat)
    requires i < |SecretsOf(bs)|
    ensures b in bs && k < |b.secrets| && b.secrets[k] == SecretsOf(bs)[i]
  {
    var last, before := bs[|bs| - 1], SecretsOf(bs[..|bs| - 1]);
    if i < |before| {
      b, k := SecretComesFrom(bs[..|bs| - 1], i);
    } else {
      b, k := last, i - |before|;
    }
  }

  lemma ReleaseFor(cfg: Config, bindings: seq<Binding>, binary: string, who: Identified)
    requires DecideFor(cfg, bindings, binary, who).Release?
    ensures DecideFor(cfg, bindings, binary, who).m == Resolve(bindings, Base(binary), who.caller)
    ensures cfg.requirePodIdentity ==> !who.failed && who.caller.pod.Some?
  {
  }

  lemma ReplyEnv(cfg: Config, d: Decision, before: Option<nat>, marked: bool, after: Option<nat>)
    ensures Reply(cfg, d, before, marked, after).env == map[]
            || (d.Release? && Reply(cfg, d, before, marked, after).env == EnvOf(d.m.secrets))
  {
  }

  lemma EnvFor(cfg: Config, bindings: seq<Binding>, binary: string, who: Identified,
               before: Option<nat>, marked: bool, after: Option<nat>)
    requires Reply(cfg, DecideFor(cfg, bindings, binary, who), before, marked, after).env != map[]
    ensures Reply(cfg, DecideFor(cfg, bindings, binary, who), before, marked, after).env ==
            EnvOf(SecretsOf(Having(bindings, Base(binary), who.caller, Admitted)))
    ensures cfg.requirePodIdentity ==> !who.failed && who.caller.pod.Some?
  {
    ReplyEnv(cfg, DecideFor(cfg, bindings, binary, who), before, marked, after);
    ReleaseFor(cfg, bindings, binary, who);
  }

  /** A response with variables in it is the environment of the admitted bindings, in order. */
  lemma EnvIsOfAdmitted(cfg: Config, bindings: seq<Binding>, binary: string, w: World, marked: bool)
    requires Respond(cfg, bindings, binary, w, marked).env != map[]
    ensures Respond(cfg, bindings, binary, w, marked).env ==
            EnvOf(SecretsOf(Having(bindings, Base(binary), Who(cfg, w).caller, Admitted)))
    ensures cfg.requirePodIdentity ==> !Who(cfg, w).failed && Who(cfg, w).caller.pod.Some?
  {
    EnvFor(cfg, bindings, binary, Who(cfg, w), w.startBefore, marked, w.startAfter);
  }

  lemma EnvComesFromBinding(bs: seq<Binding>, n: string) returns (b: Binding, k: nat)
    requires n in EnvOf(SecretsOf(bs))
    ensures b in bs && k < |b.secrets| && b.secrets[k] == Secret(n, EnvOf(SecretsOf(bs))[n])
  {
    var secrets := SecretsOf(bs);
    EnvHasLastValues(secrets, n);
    var i :| LastOfName(secrets, i) && secrets[i].name == n;
    b, k := SecretComesFrom(bs, i);
  }

  /** Where every released variable comes from, in any mode. */
  lemma ReleasedByAdmittedBinding(cfg: Config, bindings: seq<Binding>, binary: string, w: World, marked: bool,
                                  n: string)
    returns (b: Binding, k: nat)
    requires n in Respond(cfg, bindings, binary, w, marked).env
    ensures b in bindings && FateOf(b, Base(binary), Who(cfg, w).caller) == Admitted
    ensures k < |b.secrets| && b.secrets[k] == Secret(n, Respond(cfg, bindings, binary, w, marked).env[n])
    ensures cfg.requirePodIdentity ==> !Who(cfg, w).failed && Who(cfg, w).caller.pod.Some?
  {
    EnvIsOfAdmitted(cfg, bindings, binary, w, marked);
    var c := Who(cfg, w).caller;
    b, k := EnvComesFromBinding(Having(bindings, Base(binary), c, Admitted), n);
    HavingHas(bindings, Base(binary), c, Admitted, b);
  }

  lemma RequiredModeReleases(
    enforcing: bool, specs: seq<Policy.BindingSpec>, binary: string, w: World, marked: bool, n: string,
    file: Option<string>, pods: Option<PodView>)
    returns (b: Binding, k: nat)
    requires n in Respond(Wire(enforcing, Policy.Required), Policy.Built(specs, Policy.Required), binary, w, marked).env
    ensures var resp := Respond(Wire(enforcing, Policy.Required), Policy.Built(specs, Policy.Required), binary, w,
                                marked);
            var c := Who(Wire(enforcing, Policy.Required), w).caller;
            && b in Policy.Built(specs, Policy.Required) && k < |b.secrets| && b.secrets[k] == Secret(n, resp.env[n])
            && b.rejected.None? && IsPodScoped(b.selector) && Refuses(b.selector, c).None?
            && (b.selector.binary == "" || b.selector.binary == Base(binary))
            && c.pod.Some? && (w.identified == Some(Identify(file, pods)) ==> Attributed(file, pods, c))
  {
    b, k := ReleasedByAdmittedBinding(Wire(enforcing, Policy.Required), Policy.Built(specs, Policy.Required),
                                      binary, w, marked, n);
    PodMeansAttributed(file, pods);
  }

  /** The server's configuration, from the two words of the policy it depends on. */
  function Configured(mode: string, podIdentity: string): Config {
    Wire(LsmHooks.ModeByte(mode) == LsmHooks.MODE_ENFORCE, Policy.ParsePodIdentity(podIdentity))
  }

  /** What the two words come to: protection is required unless the mode is disabled or audit, callers are
      identified unless pod identity is disabled, and it is required unless it is one of three words. */
  lemma ConfiguredExactly(mode: string, podIdentity: string)
    ensures var cfg, word := Configured(mode, podIdentity), Text.ToLower(Text.TrimSpace(podIdentity));
            && (cfg.requireProtection <==> Text.ToLower(mode) !in {"disabled", "audit"})
            && (cfg.identifyCallers <==> word != "disabled")
            && (cfg.requirePodIdentity <==> word !in {"", "preferred", "disabled"})
  {
    LsmHooks.PolicyBytes(LsmHooks.PolicySpec(mode, false, false, false, false, false, false));
    Policy.OnlyKnownWordsWiden(podIdentity);
  }

  function Loaded(specs: seq<Policy.BindingSpec>, podIdentity: string): seq<Binding> {
    Policy.Built(specs, Policy.ParsePodIdentity(podIdentity))
  }

  /** Unless the setting is one of the three words that widen it, for every configuration and request: each
      released secret comes from a binding that is not rejected, constrains the pod, and admits the
      caller; and if `file` and `pods` are what the identifier went by, the caller's pod record is the
      one a synced cache holds under exactly the UID parsed from the caller's path. */
  lemma RequiredReleasesOnlyToAttributedPods(
    mode: string, podIdentity: string, specs: seq<Policy.BindingSpec>, binary: string, w: World, marked: bool,
    n: string, file: Option<string>, pods: Option<PodView>)
    returns (b: Binding, k: nat)
    requires Text.ToLower(Text.TrimSpace(podIdentity)) !in {"", "preferred", "disabled"}
    requires n in Respond(Configured(mode, podIdentity), Loaded(specs, podIdentity), binary, w, marked).env
    ensures var cfg, bindings := Configured(mode, podIdentity), Loaded(specs, podIdentity);
            var c := Who(cfg, w).caller;
            && b in bindings && k < |b.secrets|
            && b.secrets[k] == Secret(n, Respond(cfg, bindings, binary, w, marked).env[n])
            && b.rejected.None? && IsPodScoped(b.selector) && Refuses(b.selector, c).None?
            && (b.selector.binary == "" || b.selector.binary == Base(binary))
            && c.pod.Some? && (w.identified == Some(Identify(file, pods)) ==> Attributed(file, pods, c))
  {
    Policy.OnlyKnownWordsWiden(podIdentity);
    b, k := RequiredModeReleases(LsmHooks.ModeByte(mode) == LsmHooks.MODE_ENFORCE, specs, binary, w, marked, n,
                                 file, pods);
  }

  /** Under `disabled` no response, whatever it is, depends on who the caller is. */
  lemma DisabledIgnoresCaller(enforcing: bool, bindings: seq<Binding>, binary: string, w: World,
                              identified: Option<Identified>, marked: bool)
    ensures var cfg := Wire(enforcing, Policy.Disabled);
            Respond(cfg, bindings, binary, w.(identified := identified), marked) ==
            Respond(cfg, bindings, binary, w, marked)
  {
  }

  /** And every released secret comes from a binding that names exactly the requested binary and no pod. */
  lemma DisabledGoesByBinary(enforcing: bool, specs: seq<Policy.BindingSpec>, binary: string,
                             w: World, marked: bool, n: string)
    returns (b: Binding, k: nat)
    requires n in Respond(Wire(enforcing, Policy.Disabled), Policy.Built(specs, Policy.Disabled), binary, w, marked).env
    ensures var cfg, bindings := Wire(enforcing, Policy.Disabled), Policy.Built(specs, Policy.Disabled);
            && b in bindings && k < |b.secrets|
            && b.secrets[k] == Secret(n, Respond(cfg, bindings, binary, w, marked).env[n])
            && b.selector.binary == Base(binary) && !IsPodScoped(b.selector)
  {
    b, k := ReleasedByAdmittedBinding(Wire(enforcing, Policy.Disabled), Policy.Built(specs, Policy.Disabled), binary, w,
                                      marked, n);
    Policy.DisabledServesAnyone(b.selector);
  }

  lemma EnvNotEmpty(secrets: seq<Secret>)
    requires secrets != []
    ensures EnvOf(secrets) != map[]
  {
    assert secrets[|secrets| - 1].name in EnvOf(secrets);
  }

  lemma UnchangedFor(cfg: Config, m: Match, before: Option<nat>, marked: bool, after: Option<nat>)
    requires var resp := Reply(cfg, DecideMatch(cfg, m), before, marked, after); resp.ok && resp.env == map[]
    ensures m.secrets == [] && m.refused == [] && m.rejected == [] && (cfg.requireProtection ==> m.unresolved == [])
  {
    if m.secrets != [] { EnvNotEmpty(m.secrets); }
  }

  /** A process is let start without secrets only if every binding for its binary admitted it and
      had none to give; where protection is required, not even an unreadable one is passed over. */
  lemma NoSilentStart(cfg: Config, bindings: seq<Binding>, binary: string, w: World, marked: bool, b: Binding)
    requires var resp := Respond(cfg, bindings, binary, w, marked); resp.ok && resp.env == map[]
    requires b in bindings && FateOf(b, Base(binary), Who(cfg, w).caller) != Other
    ensures FateOf(b, Base(binary), Who(cfg, w).caller) == Admitted
    ensures b.secrets == [] && (cfg.requireProtection ==> b.unresolved == [])
  {
    var c, name := Who(cfg, w).caller, Base(binary);
    UnchangedFor(cfg, Resolve(bindings, name, c), w.startBefore, marked, w.startAfter);
    HavingNone(bindings, name, c, Refused);
    HavingNone(bindings, name, c, Rejected);
    HavingHas(bindings, name, c, Admitted, b);
    SecretsOfEmpty(Having(bindings, name, c, Admitted));
    SortedSize(UnresolvedOf(Having(bindings, name, c, Admitted)));
    assert |ReasonsFor(Having(bindings, name, c, Refused), c)| == |Having(bindings, name, c, Refused)|;
    assert |NamesOf(Having(bindings, name, c, Rejected))| == |Having(bindings, name, c, Rejected)|;
  }

  /** And the record a caller is attributed to is the API server's own: for every run of the watcher
      and every moment of its current stream, the server held exactly that record, under that UID,
      at some version between the stream's position and the highest version applied. */
  lemma AttributedToAServerRecord(
    h: PodCache.History, start: nat, turns: seq<PodCache.Turn>, events: seq<PodCache.Event>,
    file: Option<string>, synced: bool, c: Caller)
    returns (v: nat)
    requires PodCache.ValidHistory(h) && start <= |h|
    requires PodCache.GoodRun(h, PodCache.Listed(h, start), turns)
    requires PodCache.GoodTurn(h, PodCache.Run(h, PodCache.Listed(h, start), turns),
                               PodCache.Turn(events, PodCache.Clean, None))
    requires var view := PodCache.Run(h, PodCache.Listed(h, start), turns);
             Attributed(file, Some(PodView(synced, PodCache.ApplyAll(view.cache, events))), c)
    ensures PodCache.Run(h, PodCache.Listed(h, start), turns).rv.Some?
    ensures var view := PodCache.Run(h, PodCache.Listed(h, start), turns);
            var pos := PodCache.EndOf(view.rv.value, events);
            && pos <= v <= PodCache.Max(view.high, pos) && v <= |h|
            && c.podUID in PodCache.Snapshot(h, v) && c.pod == Some(PodCache.Snapshot(h, v)[c.podUID])
            && c.pod.value.uid == c.podUID
  {
    PodCache.CacheAgreesWithServer(h, start, turns, events);
    var view := PodCache.Run(h, PodCache.Listed(h, start), turns);
    var pos := PodCache.EndOf(view.rv.value, events);
    var cache, high := PodCache.ApplyAll(view.cache, events), PodCache.Max(view.high, pos);
    assert PodCache.HeldBetween(h, cache, c.podUID, pos, high);
    v :| pos <= v <= high && PodCache.SameAt(h, cache, c.podUID, v);
    PodCache.SnapshotKeyed(h, v, c.podUID);
  }
}
