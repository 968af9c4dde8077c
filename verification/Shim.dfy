/** The shim that fetches secrets and execs the target (`cmd/kernelseal-exec/main.go`). */
module Shim {
  import opened Options
  import opened Text
  import opened Registry
  import Server

  // ----- Merging the released variables into the inherited environment

  /** The name in front of the first "=", if there is one. */
  function NameIn(kv: string): Option<string> {
    if '=' !in kv then None else Some(Split(kv, '=')[0])
  }

  function Entry(name: string, value: string): string {
    name + "=" + value
  }

  predicate Shadowed(kv: string, overlay: map<string, string>) {
    NameIn(kv).Some? && NameIn(kv).value in overlay
  }

  /** The inherited entries that survive, in order. */
  function Surviving(base: seq<string>, overlay: map<string, string>): seq<string> {
    if base == [] then []
    else
      var kv := base[|base| - 1];
      Surviving(base[..|base| - 1], overlay) + if Shadowed(kv, overlay) then [] else [kv]
  }

  /** `order` is an iteration over the overlay: each name once. */
  predicate Iterates(order: seq<string>, overlay: map<string, string>) {
    && (forall i :: 0 <= i < |order| ==> order[i] in overlay)
    && (forall n :: n in overlay ==> n in order)
    && (forall i, j :: 0 <= i < j < |order| ==> order[i] != order[j])
  }

  function Entries(order: seq<string>, overlay: map<string, string>): seq<string>
    requires forall i :: 0 <= i < |order| ==> order[i] in overlay
  {
    seq(|order|, i requires 0 <= i < |order| => Entry(order[i], overlay[order[i]]))
  }

  /** The surviving entries, then one entry per released variable in some order. */
  ghost predicate IsMerge(base: seq<string>, overlay: map<string, string>, out: seq<string>) {
    exists order :: Iterates(order, overlay) && out == Surviving(base, overlay) + Entries(order, overlay)
  }

  /** The overlay is visited in an order the runtime chooses. */
  method MergeEnv(base: seq<string>, overlay: map<string, string>) returns (out: seq<string>)
    ensures IsMerge(base, overlay, out)
  {
    if |overlay| == 0 {
      NothingShadowed(base, overlay);
      assert base == Surviving(base, overlay) + Entries([], overlay);
      return base;
    }
    out := [];
    ghost var order: seq<string> := [];
    for i := 0 to |base|
      invariant out == Surviving(base[..i], overlay)
    {
      assert base[..i + 1][..i] == base[..i];
      var name := NameIn(base[i]);
      if name.Some? {
        if name.value in overlay { continue; }
      }
      out := out + [base[i]];
    }
    assert base[..|base|] == base;
    var rest := overlay.Keys;
    while rest != {}
      invariant rest <= overlay.Keys
      invariant forall n :: n in overlay && n !in rest <==> n in order
      invariant forall i, j :: 0 <= i < j < |order| ==> order[i] != order[j]
      invariant out == Surviving(base, overlay) + Entries(order, overlay)
      decreases |rest|
    {
      var name :| name in rest;
      out := out + [name + "=" + overlay[name]];
      order := order + [name];
      rest := rest - {name};
    }
  }

  lemma {:induction false} NothingShadowed(base: seq<string>, overlay: map<string, string>)
    requires |overlay| == 0
    ensures Surviving(base, overlay) == base && Iterates([], overlay)
  {
    assert overlay.Keys == {};
    if base != [] { NothingShadowed(base[..|base| - 1], overlay); }
  }

  // ----- What the merged environment holds

  /** How many entries set the variable `n`. */
  function Settings(env: seq<string>, n: string): nat {
    if env == [] then 0
    else Settings(env[..|env| - 1], n) + if NameIn(env[|env| - 1]) == Some(n) then 1 else 0
  }

  lemma {:induction false} SettingsConcat(a: seq<string>, b: seq<string>, n: string)
    ensures Settings(a + b, n) == Settings(a, n) + Settings(b, n)
  {
    if b == [] {
      assert a + b == a;
    } else {
      assert (a + b)[..|a + b| - 1] == a + b[..|b| - 1];
      SettingsConcat(a, b[..|b| - 1], n);
    }
  }

  lemma {:induction false} SurvivingSetNothing(base: seq<string>, overlay: map<string, string>, n: string)
    ensures n in overlay ==> Settings(Surviving(base, overlay), n) == 0
    ensures n !in overlay ==> Settings(Surviving(base, overlay), n) == Settings(base, n)
  {
    if base != [] {
      var before, kv := base[..|base| - 1], base[|base| - 1];
      SurvivingSetNothing(before, overlay, n);
      var kept := Surviving(before, overlay);
      SettingsConcat(kept, if Shadowed(kv, overlay) then [] else [kv], n);
      assert Settings([kv], n) == if NameIn(kv) == Some(n) then 1 else 0 by { assert [kv][..0] == []; }
    }
  }

  lemma NameOfEntry(name: string, value: string)
    ensures '=' !in name ==> NameIn(Entry(name, value)) == Some(name)
  {
    if '=' !in name { SplitsAtFirstEquals(name, value); }
  }

  lemma NameHasNoEquals(kv: string)
    ensures NameIn(kv).Some? ==> '=' !in NameIn(kv).value
  {
    if '=' in kv { SplitHasNoSep(kv, '=', 0); }
  }

  lemma {:induction false} EntriesSetOnce(order: seq<string>, overlay: map<string, string>, n: string)
    requires forall i :: 0 <= i < |order| ==> order[i] in overlay && '=' !in order[i]
    requires forall i, j :: 0 <= i < j < |order| ==> order[i] != order[j]
    ensures Settings(Entries(order, overlay), n) == if n in order then 1 else 0
  {
    if order != [] {
      var before, last := order[..|order| - 1], order[|order| - 1];
      EntriesSetOnce(before, overlay, n);
      assert Entries(order, overlay)[..|order| - 1] == Entries(before, overlay);
      NameOfEntry(last, overlay[last]);
      assert order == before + [last];
    }
  }

  lemma {:induction false} NeverSet(env: seq<string>, n: string)
    requires '=' in n
    ensures Settings(env, n) == 0
  {
    if env != [] {
      NeverSet(env[..|env| - 1], n);
      NameHasNoEquals(env[|env| - 1]);
    }
  }

  /** Each released name is set exactly once in the merged environment if and only if no released
      name contains "="; and then every other name is set exactly as often as before. */
  lemma {:induction false} OneSettingPerName(base: seq<string>, overlay: map<string, string>, out: seq<string>)
    requires IsMerge(base, overlay, out)
    ensures (forall n :: n in overlay ==> Settings(out, n) == 1) <==> (forall n :: n in overlay ==> '=' !in n)
    ensures (forall n :: n in overlay ==> '=' !in n) ==>
              forall n :: n !in overlay ==> Settings(out, n) == Settings(base, n)
  {
    var order :| Iterates(order, overlay) && out == Surviving(base, overlay) + Entries(order, overlay);
    if forall n :: n in overlay ==> '=' !in n {
      forall n ensures Settings(out, n) == if n in overlay then 1 else Settings(base, n) {
        SettingsConcat(Surviving(base, overlay), Entries(order, overlay), n);
        SurvivingSetNothing(base, overlay, n);
        EntriesSetOnce(order, overlay, n);
      }
    } else {
      var n :| n in overlay && '=' in n;
      NeverSet(out, n);
    }
  }

  lemma OneName(order: seq<string>, n: string, v: string)
    requires Iterates(order, map[n := v])
    ensures order == [n]
  {
    assert n in map[n := v] && n in order;
    assert order[0] == n && order[|order| - 1] == n;
  }

  /** Releasing a name that contains "=" does not set that name, and sets the part before the "=" once
      more than it was inherited. */
  lemma EqualsInNameSplitsElsewhere(base: seq<string>, a: string, b: string, v: string, out: seq<string>)
    requires '=' !in a && IsMerge(base, map[a + "=" + b := v], out)
    ensures Settings(out, a + "=" + b) == 0 && Settings(out, a) == Settings(base, a) + 1
  {
    var n := a + "=" + b;
    var overlay, entry := map[n := v], Entry(n, v);
    var order :| Iterates(order, overlay) && out == Surviving(base, overlay) + Entries(order, overlay);
    OneName(order, n, v);
    assert Entries(order, overlay) == [entry];
    NeverSet(out, n);
    assert entry == Entry(a, b + "=" + v);
    NameOfEntry(a, b + "=" + v);
    SurvivingSetNothing(base, overlay, a);
    SettingsConcat(Surviving(base, overlay), [entry], a);
    assert [entry][..0] == [];
  }

  // ----- What a process reads from it

  /** The text after the first "=". */
  function AfterEquals(kv: string): string {
    if kv == "" then "" else if kv[0] == '=' then kv[1..] else AfterEquals(kv[1..])
  }

  /** `getenv`: the text after the "=" of the first entry that sets the name. */
  function GetEnv(env: seq<string>, n: string): Option<string> {
    if env == [] then None
    else if NameIn(env[0]) == Some(n) then Some(AfterEquals(env[0]))
    else GetEnv(env[1..], n)
  }

  lemma {:induction false} SplitsAtFirstEquals(n: string, v: string)
    requires '=' !in n
    ensures NameIn(n + "=" + v) == Some(n) && AfterEquals(n + "=" + v) == v
  {
    SplitConcat(n, v, '=');
    SplitAfter(n, "", '=');
    assert n + "" == n;
    if n != "" {
      SplitsAtFirstEquals(n[1..], v);
      assert (n + "=" + v)[1..] == n[1..] + "=" + v;
    }
  }

  lemma {:induction false} GetEnvConcat(a: seq<string>, b: seq<string>, n: string)
    ensures GetEnv(a + b, n) == if GetEnv(a, n).Some? then GetEnv(a, n) else GetEnv(b, n)
  {
    if a == [] {
      assert a + b == b;
    } else {
      assert (a + b)[1..] == a[1..] + b;
      GetEnvConcat(a[1..], b, n);
    }
  }

  lemma {:induction false} SurvivingRead(base: seq<string>, overlay: map<string, string>, n: string)
    ensures GetEnv(Surviving(base, overlay), n) == if n in overlay then None else GetEnv(base, n)
  {
    if base != [] {
      var before, kv := base[..|base| - 1], base[|base| - 1];
      SurvivingRead(before, overlay, n);
      assert base == before + [kv];
      GetEnvConcat(before, [kv], n);
      GetEnvConcat(Surviving(before, overlay), [kv], n);
      assert Surviving(before, overlay) + [] == Surviving(before, overlay);
    }
  }

  lemma {:induction false} EntriesRead(order: seq<string>, overlay: map<string, string>, n: string)
    requires forall i :: 0 <= i < |order| ==> order[i] in overlay && '=' !in order[i]
    ensures GetEnv(Entries(order, overlay), n) == if n in order then Some(overlay[n]) else None
  {
    if order != [] {
      EntriesRead(order[1..], overlay, n);
      assert Entries(order, overlay)[1..] == Entries(order[1..], overlay);
      SplitsAtFirstEquals(order[0], overlay[order[0]]);
      assert order == [order[0]] + order[1..];
    }
  }

  /** If no released name contains "=", a process reads every released variable with its released value
      and every other variable as it was inherited. */
  lemma MergedEnvironmentReads(base: seq<string>, overlay: map<string, string>, out: seq<string>, n: string)
    requires IsMerge(base, overlay, out) && forall m :: m in overlay ==> '=' !in m
    ensures GetEnv(out, n) == if n in overlay then Some(overlay[n]) else GetEnv(base, n)
  {
    var order :| Iterates(order, overlay) && out == Surviving(base, overlay) + Entries(order, overlay);
    GetEnvConcat(Surviving(base, overlay), Entries(order, overlay), n);
    SurvivingRead(base, overlay, n);
    EntriesRead(order, overlay, n);
  }

  lemma {:induction false} NameThenValue(kv: string)
    requires '=' in kv
    ensures kv == NameIn(kv).value + "=" + AfterEquals(kv)
  {
    if kv[0] != '=' {
      NameThenValue(kv[1..]);
      assert kv == [kv[0]] + kv[1..];
      assert NameIn(kv).value == [kv[0]] + NameIn(kv[1..]).value;
    }
  }

  /** Whatever the released names are, exactly the inherited entries that begin with a released name and
      "=" are dropped. */
  lemma {:induction false} InheritedKept(base: seq<string>, overlay: map<string, string>, kv: string)
    ensures kv in Surviving(base, overlay) <==>
              kv in base && !exists n :: n in overlay && '=' !in n && HasPrefix(kv, n + "=")
  {
    ShadowedExactly(kv, overlay);
    if base != [] {
      InheritedKept(base[..|base| - 1], overlay, kv);
      assert base == base[..|base| - 1] + [base[|base| - 1]];
    }
  }

  lemma ShadowedExactly(kv: string, overlay: map<string, string>)
    ensures Shadowed(kv, overlay) <==> exists n :: n in overlay && '=' !in n && HasPrefix(kv, n + "=")
  {
    if Shadowed(kv, overlay) {
      var n := NameIn(kv).value;
      NameHasNoEquals(kv);
      NameThenValue(kv);
      assert n in overlay && '=' !in n && HasPrefix(kv, n + "=");
    }
    if n :| n in overlay && '=' !in n && HasPrefix(kv, n + "=") {
      var v := kv[|n| + 1..];
      assert kv == n + "=" + v;
      SplitsAtFirstEquals(n, v);
      assert kv[|n|] == '=';
    }
  }

  /** The exec'd environment: one entry per released name, read as the value of the last admitted secret
      of that name, and otherwise what was inherited. */
  lemma ExecEnvironment(base: seq<string>, secrets: seq<Secret>, out: seq<string>, i: nat, n: string)
    requires forall k :: 0 <= k < |secrets| ==> '=' !in secrets[k].name
    requires IsMerge(base, Server.EnvOf(secrets), out) && Server.LastOfName(secrets, i)
    ensures GetEnv(out, secrets[i].name) == Some(secrets[i].value) && Settings(out, secrets[i].name) == 1
    ensures (forall k :: 0 <= k < |secrets| ==> secrets[k].name != n) ==> GetEnv(out, n) == GetEnv(base, n)
    ensures Surviving(base, Server.EnvOf(secrets)) <= out
  {
    var overlay := Server.EnvOf(secrets);
    forall n | n in overlay ensures '=' !in n {
      Server.EnvHasLastValues(secrets, n);
    }
    OneSettingPerName(base, overlay, out);
    Server.EnvHasLastValues(secrets, secrets[i].name);
    Server.EnvHasLastValues(secrets, n);
    MergedEnvironmentReads(base, overlay, out, secrets[i].name);
    MergedEnvironmentReads(base, overlay, out, n);
  }

  // ----- Fetching, with retries

  /** What one request to the agent runs into. `viaSocket` says the error is a network operation's. */
  datatype Outcome =
    | Served(env: map<string, string>)
    | RefusedByAgent
    | DialFailed
    | SendFailed(viaSocket: bool)
    | ReadFailed(viaSocket: bool)
    | TimedOut

  /** Errors worth another attempt. A network error while sending or reading counts as well. */
  predicate IsConnectError(o: Outcome) {
    match o
    case DialFailed => true
    case SendFailed(viaSocket) => viaSocket
    case ReadFailed(viaSocket) => viaSocket
    case _ => false
  }

  /** One attempt as the world lets it go: its outcome, how long it took, and how much time passed, beyond
      the requested interval if it is not the first, before it looked at the time left. */
  datatype Attempt = Attempt(lead: nat, outcome: Outcome, took: nat)

  datatype Fetched = Fetched(env: map<string, string>) | Failed(why: Outcome) | Unreachable

  /** The clock, in time since the deadline was fixed, when attempt `k` looks at the time left. */
  function Begins(interval: int, world: nat -> Attempt, k: nat): int
    decreases k, 0
  {
    (if k == 0 then 0 else Ends(interval, world, k - 1) + interval) + world(k).lead
  }

  /** And when it is over. */
  function Ends(interval: int, world: nat -> Attempt, k: nat): int
    decreases k, 1
  {
    Begins(interval, world, k) + world(k).took
  }

  function RequestOnce(remaining: int, a: Attempt): Outcome {
    if remaining <= 0 then TimedOut else a.outcome
  }

  /** What attempt `k` comes to. */
  function OutcomeOf(timeout: int, interval: int, world: nat -> Attempt, k: nat): Outcome {
    RequestOnce(timeout - Begins(interval, world, k), world(k))
  }

  /** Attempt `k` is followed by another: it failed in a way worth repeating, and a further interval
      ends before the deadline. */
  predicate Retries(timeout: int, interval: int, world: nat -> Attempt, k: nat) {
    IsConnectError(OutcomeOf(timeout, interval, world, k)) && Ends(interval, world, k) + interval < timeout
  }

  /** `n` attempts are made: each is followed by another exactly when it is to be repeated. */
  ghost predicate IsRun(timeout: int, interval: int, world: nat -> Attempt, n: nat) {
    n > 0 && forall k: nat :: k < n ==> (k + 1 < n <==> Retries(timeout, interval, world, k))
  }

  /** Spelled out: there was time for the attempt, it failed to connect or was cut off by a network error,
      and the next one would begin before the deadline. */
  lemma RetriesExactly(timeout: int, interval: int, world: nat -> Attempt, k: nat)
    ensures Retries(timeout, interval, world, k) <==>
              && Begins(interval, world, k) < timeout
              && world(k).outcome in {DialFailed, SendFailed(true), ReadFailed(true)}
              && Begins(interval, world, k) + world(k).took + interval < timeout
  {
  }

  /** One attempt is always made; beyond that, at most one per interval that fits in the timeout. */
  function MaxAttempts(timeout: int, interval: int): int
    requires interval > 0
  {
    if timeout <= 0 then 1 else (timeout + interval - 1) / interval
  }

  lemma AttemptBound(made: nat, timeout: int, interval: int)
    requires interval > 0 && (made == 0 || made * interval < timeout)
    ensures made + 1 <= MaxAttempts(timeout, interval)
  {
  }

  /** The retry loop under any clock: `world(k)` is attempt `k`. */
  method FetchSecrets(timeout: int, interval: int, world: nat -> Attempt) returns (result: Fetched, attempts: nat)
    requires interval > 0
    ensures IsRun(timeout, interval, world, attempts)
    ensures match OutcomeOf(timeout, interval, world, attempts - 1)
            case Served(env) => result == Fetched(env)
            case RefusedByAgent => result == Failed(RefusedByAgent)
            case DialFailed => result == Unreachable
            case SendFailed(viaSocket) => result == if viaSocket then Unreachable else Failed(SendFailed(false))
            case ReadFailed(viaSocket) => result == if viaSocket then Unreachable else Failed(ReadFailed(false))
            case TimedOut => result == Failed(TimedOut)
    ensures result.Unreachable? ==> Ends(interval, world, attempts - 1) + interval >= timeout
    ensures attempts <= MaxAttempts(timeout, interval) && (attempts > 1 ==> (attempts - 1) * interval < timeout)
  {
    var now: int := world(0).lead;
    var deadline := timeout;
    ghost var floor := 0;
    attempts := 0;
    while true
      invariant now == Begins(interval, world, attempts)
      invariant floor == attempts * interval && floor <= now
      invariant attempts > 0 ==> floor < deadline
      invariant forall k: nat :: k < attempts ==> Retries(timeout, interval, world, k)
      decreases deadline - now
    {
      AttemptBound(attempts, timeout, interval);
      var a := world(attempts);
      var outcome := RequestOnce(deadline - now, a);
      now := now + a.took;
      attempts := attempts + 1;
      if outcome.Served? { return Fetched(outcome.env), attempts; }
      if !IsConnectError(outcome) { return Failed(outcome), attempts; }
      if !(now + interval < deadline) { return Unreachable, attempts; }
      now := now + interval + world(attempts).lead;
      floor := floor + interval;
    }
  }

  // ----- What is repeated

  /** Attempt `j` is the first that got through to the agent's socket. */
  ghost predicate FirstConnected(world: nat -> Attempt, j: nat) {
    !world(j).outcome.DialFailed? && forall k: nat :: k < j ==> world(k).outcome.DialFailed?
  }

  lemma {:induction false} ClockAdvances(interval: int, world: nat -> Attempt, j: nat, k: nat)
    requires interval > 0 && j <= k
    ensures Ends(interval, world, j) <= Ends(interval, world, k)
  {
    if j < k { ClockAdvances(interval, world, j, k - 1); }
  }

  /** If attempt `j` is to be repeated and all before it failed to connect, the loop gets that far. */
  lemma ReachesConnected(timeout: int, interval: int, world: nat -> Attempt, n: nat, j: nat)
    requires interval > 0 && IsRun(timeout, interval, world, n)
    requires FirstConnected(world, j) && Retries(timeout, interval, world, j)
    ensures j + 1 < n
  {
    if n <= j {
      var k := n - 1;
      ClockAdvances(interval, world, k, j);
      assert Ends(interval, world, k) >= Begins(interval, world, k);
      assert world(k).outcome.DialFailed?;
      assert Retries(timeout, interval, world, k);
    }
  }

  lemma {:induction false} FindConnected(world: nat -> Attempt, k: nat) returns (j: nat)
    requires !world(k).outcome.DialFailed?
    ensures j <= k && FirstConnected(world, j)
  {
    if i: nat :| i < k && !world(i).outcome.DialFailed? {
      j := FindConnected(world, i);
    } else {
      j := k;
    }
  }

  /** When only failures to connect are repeated: exactly when the first attempt that gets through is
      not cut off by a network error with time to spare. */
  lemma {:induction false} RepeatsOnlyDialsExactly(timeout: int, interval: int, world: nat -> Attempt, n: nat)
    requires interval > 0 && IsRun(timeout, interval, world, n)
    ensures (forall k: nat :: k + 1 < n ==> world(k).outcome.DialFailed?) <==>
            !exists j: nat :: FirstConnected(world, j) && Retries(timeout, interval, world, j)
  {
    if j: nat :| FirstConnected(world, j) && Retries(timeout, interval, world, j) {
      ReachesConnected(timeout, interval, world, n, j);
    }
    if k: nat :| k + 1 < n && !world(k).outcome.DialFailed? {
      var j := FindConnected(world, k);
      assert Retries(timeout, interval, world, j);
    }
  }

  /** A run that repeats a request the agent may already have answered: the first response is lost on
      the way, the second attempt is served. */
  lemma RepeatsAfterFailedRead(env: map<string, string>)
    ensures var world := (k: nat) => if k == 0 then Attempt(0, ReadFailed(true), 1) else Attempt(0, Served(env), 1);
            && IsRun(10, 1, world, 2)
            && OutcomeOf(10, 1, world, 1) == Served(env)
  {
    var world := (k: nat) => if k == 0 then Attempt(0, ReadFailed(true), 1) else Attempt(0, Served(env), 1);
    assert Ends(1, world, 0) == 1 && Begins(1, world, 1) == 2;
    assert Retries(10, 1, world, 0) && !Retries(10, 1, world, 1);
  }
}
