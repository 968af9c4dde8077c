/** Turning a configuration into the identity mode and the registry (`internal/policy.go`). */
module Policy {
  import opened Options
  import opened Text
  import opened Decimal
  import opened Registry

  datatype IdentityMode = Preferred | Required | Disabled

  /** Anything that is not one of the known words selects the strictest mode. */
  function ParsePodIdentity(s: string): IdentityMode {
    var word := ToLower(TrimSpace(s));
    if word == "" || word == "preferred" then Preferred
    else if word == "required" then Required
    else if word == "disabled" then Disabled
    else Required
  }

  /** Only the empty setting and the words preferred and disabled, in any letter case and with any
      white space around them, ever widen the mode; `required` and everything unrecognised do not. */
  lemma OnlyKnownWordsWiden(s: string)
    ensures ParsePodIdentity(s) == Required <==> ToLower(TrimSpace(s)) !in {"", "preferred", "disabled"}
    ensures ParsePodIdentity(s) == Disabled <==> ToLower(TrimSpace(s)) == "disabled"
  {
    assert "required"[0] == 'r' && "preferred"[0] == 'p' && "disabled"[0] == 'd';
  }

  /** Why a binding can serve nobody under a mode, or None when it can. */
  function RejectionFor(s: Selector, mode: IdentityMode): Option<Rejection> {
    if s.binary == "" && !IsPodScoped(s) then Some(MatchesNothing)
    else if s.cgroupPath != "" && TrimSuffix(TrimSpace(s.cgroupPath), "/") == "" then Some(RootCgroup)
    else
      match mode
      case Required => if !IsPodScoped(s) then Some(NamesNoPod) else None
      case Disabled =>
        if IsPodScoped(s) then Some(PodSelectorUnusable)
        else if s.binary == "" then Some(OnlyBinaryUsable)
        else None
      case Preferred => None
  }

  /** A reference to a secret together with what reading its source yielded. */
  datatype SecretRef = SecretRef(name: string, value: Option<string>)

  datatype BindingSpec = BindingSpec(name: string, selector: Selector, refs: seq<SecretRef>)

  function Resolved(refs: seq<SecretRef>): seq<Secret> {
    if refs == [] then []
    else
      var last := refs[|refs| - 1];
      Resolved(refs[..|refs| - 1]) + if last.value.Some? then [Secret(last.name, last.value.value)] else []
  }

  function Unresolved(refs: seq<SecretRef>): seq<string> {
    if refs == [] then []
    else
      var last := refs[|refs| - 1];
      Unresolved(refs[..|refs| - 1]) + if last.value.None? then [last.name] else []
  }

  /** The binding configured at position `i`. */
  function BindingAt(i: nat, spec: BindingSpec, mode: IdentityMode): Binding {
    Binding(if spec.name == "" then "secrets[" + Print(i) + "]" else spec.name,
            spec.selector, Resolved(spec.refs), Unresolved(spec.refs), RejectionFor(spec.selector, mode))
  }

  function Built(specs: seq<BindingSpec>, mode: IdentityMode): seq<Binding> {
    seq(|specs|, i requires 0 <= i < |specs| => BindingAt(i, specs[i], mode))
  }

  /** The inner loop: split a binding's references by whether their source could be read. */
  method ResolveRefs(refs: seq<SecretRef>) returns (secrets: seq<Secret>, unresolved: seq<string>)
    ensures secrets == Resolved(refs) && unresolved == Unresolved(refs)
  {
    secrets, unresolved := [], [];
    for j := 0 to |refs|
      invariant secrets == Resolved(refs[..j]) && unresolved == Unresolved(refs[..j])
    {
      assert refs[..j + 1][..j] == refs[..j];
      if refs[j].value.None? {
        unresolved := unresolved + [refs[j].name];
        continue;
      }
      secrets := secrets + [Secret(refs[j].name, refs[j].value.value)];
    }
    assert refs[..|refs|] == refs;
  }

  /** Rejected bindings are kept, one binding per entry of the configuration. */
  method LoadSecrets(specs: seq<BindingSpec>, mode: IdentityMode, registry: Store)
    modifies registry
    ensures registry.bindings == Built(specs, mode)
  {
    var built: seq<Binding> := [];
    for i := 0 to |specs|
      invariant |built| == i && forall k :: 0 <= k < i ==> built[k] == BindingAt(k, specs[k], mode)
    {
      var spec := specs[i];
      var name := spec.name;
      if name == "" { name := "secrets[" + Print(i) + "]"; }
      var secrets, unresolved := ResolveRefs(spec.refs);
      built := built + [Binding(name, spec.selector, secrets, unresolved, RejectionFor(spec.selector, mode))];
    }
    registry.Replace(built);
  }

  /** Every configured name ends up either released or unresolved, never both and never dropped. */
  lemma {:induction false} RefsConserved(refs: seq<SecretRef>)
    ensures |Resolved(refs)| + |Unresolved(refs)| == |refs|
    ensures forall s :: s in Resolved(refs) <==> SecretRef(s.name, Some(s.value)) in refs
    ensures forall n :: n in Unresolved(refs) <==> SecretRef(n, None) in refs
  {
    if refs != [] {
      RefsConserved(refs[..|refs| - 1]);
      assert refs == refs[..|refs| - 1] + [refs[|refs| - 1]];
    }
  }

  lemma {:induction false} RefsInOrder(a: seq<SecretRef>, b: seq<SecretRef>)
    ensures Resolved(a + b) == Resolved(a) + Resolved(b) && Unresolved(a + b) == Unresolved(a) + Unresolved(b)
  {
    if b == [] {
      assert a + b == a;
    } else {
      assert (a + b)[..|a + b| - 1] == a + b[..|b| - 1];
      RefsInOrder(a, b[..|b| - 1]);
    }
  }

  /** What entry `i` of the configuration becomes: its name, or one made from its position; its selector; the
      references that could be read as secrets, the others as unresolved names. */
  lemma LoadedExactly(specs: seq<BindingSpec>, mode: IdentityMode, i: nat)
    requires i < |specs|
    ensures |Built(specs, mode)| == |specs|
    ensures var b, spec := Built(specs, mode)[i], specs[i];
            && b.name == (if spec.name == "" then "secrets[" + Print(i) + "]" else spec.name)
            && b.selector == spec.selector && b.rejected == RejectionFor(spec.selector, mode)
            && (forall s :: s in b.secrets <==> SecretRef(s.name, Some(s.value)) in spec.refs)
            && (forall n :: n in b.unresolved <==> SecretRef(n, None) in spec.refs)
  {
    RefsConserved(specs[i].refs);
  }

  /** What is passed, mode by mode and field by field. Besides a binding for everything and one for the root
      cgroup, `preferred` rejects nothing, `required` rejects only what names no pod, and `disabled`
      only what names one. */
  lemma PassedExactly(s: Selector)
    ensures var scoped := s.namespace != "" || s.labels != map[] || s.cgroupPath != "" || s.container != "";
            var root := s.cgroupPath != "" && TrimSpace(s.cgroupPath) in {"", "/"};
            && (RejectionFor(s, Preferred).None? <==> (s.binary != "" || scoped) && !root)
            && (RejectionFor(s, Required).None? <==> scoped && !root)
            && (RejectionFor(s, Disabled).None? <==> s.binary != "" && !scoped)
  {
    var t := TrimSpace(s.cgroupPath);
    assert TrimSuffix(t, "/") == "" <==> t in {"", "/"} by {
      if HasSuffix(t, "/") { assert t == t[..|t| - 1] + "/"; }
    }
  }

  /** What is not rejected under `disabled` names a binary, and every caller is admitted. */
  lemma DisabledServesAnyone(s: Selector)
    requires RejectionFor(s, Disabled).None?
    ensures s.binary != "" && forall c :: Refuses(s, c).None?
  {
  }
}
