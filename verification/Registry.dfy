/** Which secrets apply to a caller (`internal/secrets/registry.go`). */
module Registry {
  import opened Options
  import opened Text
  import opened Pods
  import Sorting

  datatype Secret = Secret(name: string, value: string)

  datatype Selector = Selector(binary: string, container: string, namespace: string,
                               labels: map<string, string>, cgroupPath: string)

  /** Everything known about a requesting process that does not come from the request. */
  datatype Caller = Caller(cgroupPath: string, relative: bool, podUID: string, containerID: string,
                           pod: Option<Pod>)

  datatype Rejection = MatchesNothing | RootCgroup | NamesNoPod | PodSelectorUnusable | OnlyBinaryUsable

  datatype Binding = Binding(name: string, selector: Selector, secrets: seq<Secret>, unresolved: seq<string>,
                             rejected: Option<Rejection>)

  /** The first pod constraint that does not accept a caller. */
  datatype Refusal = PathNotComparable | PathDiffers | NamespaceDiffers | LabelsDiffer | ContainerDiffers

  predicate IsPodScoped(s: Selector) {
    s.namespace != "" || s.labels != map[] || s.cgroupPath != "" || s.container != ""
  }

  /** Go's map lookup: a missing key reads as the empty string. */
  function Look(m: map<string, string>, k: string): string {
    if k in m then m[k] else ""
  }

  // ----- cgroupPath selectors

  predicate CgroupPathMatches(want: string, got: string) {
    var w := TrimSuffix(want, "/");
    w != "" && (got == w || HasPrefix(got, w + "/"))
  }

  lemma {:induction false} JoinConcat(a: seq<string>, b: seq<string>, sep: char)
    requires |a| > 0 && |b| > 0
    ensures Join(a + b, sep) == Join(a, sep) + [sep] + Join(b, sep)
  {
    if |a| == 1 {
      assert (a + b)[1..] == b;
    } else {
      JoinConcat(a[1..], b, sep);
      assert (a + b)[1..] == a[1..] + b;
    }
  }

  /** The string test is exactly: the trimmed path is not empty and its segments begin the caller's. */
  lemma PathMatchIsSegmentPrefix(want: string, got: string)
    ensures CgroupPathMatches(want, got) <==>
              TrimSuffix(want, "/") != "" && Split(TrimSuffix(want, "/"), '/') <= Split(got, '/')
  {
    var w := TrimSuffix(want, "/");
    if HasPrefix(got, w + "/") {
      var rest := got[|w| + 1..];
      assert got == w + "/" + rest;
      SplitConcat(w, rest, '/');
    }
    var sw, sg := Split(w, '/'), Split(got, '/');
    if sw <= sg {
      JoinSplit(w, '/');
      JoinSplit(got, '/');
      if |sw| == |sg| {
        assert sw == sg;
      } else {
        var rest := sg[|sw|..];
        assert sg == sw + rest;
        JoinConcat(sw, rest, '/');
        assert got[..|w| + 1] == w + "/";
      }
    }
  }

  /** The accepted set is closed under descendants. */
  lemma PathMatchDescends(want: string, got: string, below: string)
    requires CgroupPathMatches(want, got)
    ensures CgroupPathMatches(want, got + "/" + below)
  {
  }

  /** One selector accepts everything another does exactly when it accepts the other's own path. */
  lemma PathSelectorsNest(outer: string, inner: string)
    requires TrimSuffix(inner, "/") != ""
    ensures (forall got :: CgroupPathMatches(inner, got) ==> CgroupPathMatches(outer, got)) <==>
              CgroupPathMatches(outer, TrimSuffix(inner, "/"))
  {
  }

  /** Accepting the inner path as it is written, with its trailing slash, is not enough. */
  lemma NestingNeedsTheTrimmedPath()
    ensures CgroupPathMatches("a//", "a/") && CgroupPathMatches("a/", "a") && !CgroupPathMatches("a//", "a")
  {
  }

  // ----- Admission

  predicate LabelFits(pod: Option<Pod>, k: string, v: string) {
    pod.Some? && Look(pod.value.labels, k) == v
  }

  predicate ContainerFits(c: Caller, container: string) {
    c.pod.Some? && c.containerID != "" && Look(c.pod.value.containers, c.containerID) == container
  }

  /** Why a selector refuses a caller, or None if it admits it. */
  function Refuses(s: Selector, c: Caller): Option<Refusal> {
    if s.cgroupPath != "" && c.relative then Some(PathNotComparable)
    else if s.cgroupPath != "" && !CgroupPathMatches(s.cgroupPath, c.cgroupPath) then Some(PathDiffers)
    else if s.namespace != "" && (c.pod.None? || c.pod.value.namespace != s.namespace) then Some(NamespaceDiffers)
    else if exists k :: k in s.labels && !LabelFits(c.pod, k, s.labels[k]) then Some(LabelsDiffer)
    else if s.container != "" && !ContainerFits(c, s.container) then Some(ContainerDiffers)
    else None
  }

  /** The code's order of checks. The labels are visited in an order the runtime chooses, which
      affects neither the verdict nor the reason. */
  method Admits(s: Selector, c: Caller) returns (why: Option<Refusal>)
    ensures why == Refuses(s, c)
  {
    if s.cgroupPath != "" {
      if c.relative { return Some(PathNotComparable); }
      if !CgroupPathMatches(s.cgroupPath, c.cgroupPath) { return Some(PathDiffers); }
    }
    if s.namespace != "" {
      if c.pod.None? || c.pod.value.namespace != s.namespace { return Some(NamespaceDiffers); }
    }
    var rest := s.labels.Keys;
    while rest != {}
      invariant rest <= s.labels.Keys
      invariant forall k :: k in s.labels && k !in rest ==> LabelFits(c.pod, k, s.labels[k])
      decreases |rest|
    {
      var k :| k in rest;
      if c.pod.None? || Look(c.pod.value.labels, k) != s.labels[k] { return Some(LabelsDiffer); }
      rest := rest - {k};
    }
    if s.container != "" {
      if c.pod.None? || c.containerID == "" || Look(c.pod.value.containers, c.containerID) != s.container {
        return Some(ContainerDiffers);
      }
    }
    return None;
  }

  /** Every constraint the selector states is met, with nothing said about the order of checking. */
  ghost predicate MeetsAll(s: Selector, c: Caller) {
    && (s.cgroupPath != "" ==> !c.relative && TrimSuffix(s.cgroupPath, "/") != ""
                               && Split(TrimSuffix(s.cgroupPath, "/"), '/') <= Split(c.cgroupPath, '/'))
    && (s.namespace != "" ==> c.pod.Some? && c.pod.value.namespace == s.namespace)
    && (forall k :: k in s.labels ==> c.pod.Some? && Look(c.pod.value.labels, k) == s.labels[k])
    && (s.container != "" ==> c.pod.Some? && c.containerID != ""
                              && Look(c.pod.value.containers, c.containerID) == s.container)
  }

  /** A selector admits exactly the callers that meet all of its constraints. */
  lemma AdmitsIffAllMet(s: Selector, c: Caller)
    ensures Refuses(s, c).None? <==> MeetsAll(s, c)
  {
    PathMatchIsSegmentPrefix(s.cgroupPath, c.cgroupPath);
    if forall k :: k in s.labels ==> LabelFits(c.pod, k, s.labels[k]) {
      assert forall k :: k in s.labels ==> c.pod.Some? && Look(c.pod.value.labels, k) == s.labels[k];
    } else {
      var k :| k in s.labels && !LabelFits(c.pod, k, s.labels[k]);
    }
  }

  /** The reason given is the first constraint that is not met: path, then namespace, labels, container. */
  lemma ReasonIsFirstUnmet(s: Selector, c: Caller)
    ensures var pathOk := s.cgroupPath == "" || (!c.relative && CgroupPathMatches(s.cgroupPath, c.cgroupPath));
            var namespaceOk := s.namespace == "" || (c.pod.Some? && c.pod.value.namespace == s.namespace);
            var labelsOk := forall k :: k in s.labels ==> LabelFits(c.pod, k, s.labels[k]);
            var why := Refuses(s, c);
            && (why == Some(PathNotComparable) <==> s.cgroupPath != "" && c.relative)
            && (why == Some(PathDiffers) <==> !pathOk && !c.relative)
            && (why == Some(NamespaceDiffers) <==> pathOk && !namespaceOk)
            && (why == Some(LabelsDiffer) <==> pathOk && namespaceOk && !labelsOk)
            && (why == Some(ContainerDiffers) ==> pathOk && namespaceOk && labelsOk && s.container != "")
  {
  }

  /** A container selector admits a caller exactly when the last status that names the caller's
      container ID carries the selected name. */
  lemma ContainerSelectorExact(s: Selector, c: Caller, all: seq<ContainerStatus>)
    requires s.container != "" && s.cgroupPath == "" && s.namespace == "" && s.labels == map[]
    requires c.pod.Some? && IsContainerMap(all, c.pod.value.containers)
    ensures Refuses(s, c).None? <==> exists i :: LastNaming(all, i, c.containerID) && all[i].name == s.container
  {
  }

  // ----- Lookup

  /** What becomes of a binding in a lookup. */
  datatype Fate = Other | Rejected | Refused | Admitted

  function FateOf(b: Binding, binary: string, c: Caller): Fate {
    if b.selector.binary != "" && b.selector.binary != binary then Other
    else if b.rejected.Some? then Rejected
    else if Refuses(b.selector, c).Some? then Refused
    else Admitted
  }

  /** A binding that names no binary is for every one. A rejected one is rejected whoever asks, and of the
      others exactly those whose constraints are all met admit the caller. */
  lemma FatesExactly(b: Binding, binary: string, c: Caller)
    ensures var applies := b.selector.binary == "" || b.selector.binary == binary;
            && (FateOf(b, binary, c) == Other <==> !applies)
            && (FateOf(b, binary, c) == Rejected <==> applies && b.rejected.Some?)
            && (FateOf(b, binary, c) == Admitted <==> applies && b.rejected.None? && MeetsAll(b.selector, c))
  {
    AdmitsIffAllMet(b.selector, c);
  }

  /** The bindings that meet a given fate, in order. */
  function Having(bs: seq<Binding>, binary: string, c: Caller, fate: Fate): seq<Binding> {
    if bs == [] then []
    else
      var b := bs[|bs| - 1];
      Having(bs[..|bs| - 1], binary, c, fate) + if FateOf(b, binary, c) == fate then [b] else []
  }

  function SecretsOf(bs: seq<Binding>): seq<Secret> {
    if bs == [] then [] else SecretsOf(bs[..|bs| - 1]) + bs[|bs| - 1].secrets
  }

  function UnresolvedOf(bs: seq<Binding>): seq<string> {
    if bs == [] then [] else UnresolvedOf(bs[..|bs| - 1]) + bs[|bs| - 1].unresolved
  }

  function NamesOf(bs: seq<Binding>): seq<string> {
    seq(|bs|, i requires 0 <= i < |bs| => bs[i].name)
  }

  function ReasonsFor(bs: seq<Binding>, c: Caller): seq<(string, Option<Refusal>)> {
    seq(|bs|, i requires 0 <= i < |bs| => (bs[i].name, Refuses(bs[i].selector, c)))
  }

  datatype Match = Match(secrets: seq<Secret>, unresolved: seq<string>, refused: seq<(string, Option<Refusal>)>,
                         rejected: seq<string>)
  {
    predicate Empty() {
      |secrets| == 0 && |unresolved| == 0 && |refused| == 0 && |rejected| == 0
    }
  }

  /** The outcome of a lookup, before its unresolved names are sorted. */
  function Collect(bs: seq<Binding>, binary: string, c: Caller): Match {
    Match(SecretsOf(Having(bs, binary, c, Admitted)),
          UnresolvedOf(Having(bs, binary, c, Admitted)),
          ReasonsFor(Having(bs, binary, c, Refused), c),
          NamesOf(Having(bs, binary, c, Rejected)))
  }

  function Resolve(bs: seq<Binding>, binary: string, c: Caller): Match {
    var m := Collect(bs, binary, c);
    m.(unresolved := Sorting.Sort(m.unresolved))
  }

  lemma HavingLast(bs: seq<Binding>, b: Binding, binary: string, c: Caller, fate: Fate)
    ensures Having(bs + [b], binary, c, fate) ==
            if FateOf(b, binary, c) == fate then Having(bs, binary, c, fate) + [b] else Having(bs, binary, c, fate)
  {
  }

  lemma OfLast(bs: seq<Binding>, b: Binding, c: Caller)
    ensures SecretsOf(bs + [b]) == SecretsOf(bs) + b.secrets
    ensures UnresolvedOf(bs + [b]) == UnresolvedOf(bs) + b.unresolved
    ensures ReasonsFor(bs + [b], c) == ReasonsFor(bs, c) + [(b.name, Refuses(b.selector, c))]
    ensures NamesOf(bs + [b]) == NamesOf(bs) + [b.name]
  {
  }

  lemma CollectStep(bs: seq<Binding>, b: Binding, binary: string, c: Caller)
    ensures var m, m' := Collect(bs, binary, c), Collect(bs + [b], binary, c);
            match FateOf(b, binary, c)
            case Other => m' == m
            case Rejected => m' == m.(rejected := m.rejected + [b.name])
            case Refused => m' == m.(refused := m.refused + [(b.name, Refuses(b.selector, c))])
            case Admitted => m' == m.(secrets := m.secrets + b.secrets, unresolved := m.unresolved + b.unresolved)
  {
    HavingLast(bs, b, binary, c, Admitted);
    HavingLast(bs, b, binary, c, Refused);
    HavingLast(bs, b, binary, c, Rejected);
    OfLast(Having(bs, binary, c, FateOf(b, binary, c)), b, c);
  }

  class Store {
    var bindings: seq<Binding>

    constructor ()
      ensures bindings == []
    {
      bindings := [];
    }

    method Replace(bs: seq<Binding>)
      modifies this
      ensures bindings == bs
    {
      bindings := bs;
    }

    method Lookup(binary: string, c: Caller) returns (m: Match)
      ensures m == Resolve(bindings, binary, c)
    {
      var secrets: seq<Secret>, unresolved: seq<string> := [], [];
      var refused: seq<(string, Option<Refusal>)>, rejected: seq<string> := [], [];
      for i := 0 to |bindings|
        invariant Match(secrets, unresolved, refused, rejected) == Collect(bindings[..i], binary, c)
      {
        var b := bindings[i];
        CollectStep(bindings[..i], b, binary, c);
        assert bindings[..i + 1] == bindings[..i] + [b];
        if b.selector.binary != "" && b.selector.binary != binary { continue; }
        if b.rejected.Some? {
          rejected := rejected + [b.name];
          continue;
        }
        var why := Admits(b.selector, c);
        if why.Some? {
          refused := refused + [(b.name, why)];
          continue;
        }
        secrets := secrets + b.secrets;
        unresolved := unresolved + b.unresolved;
      }
      assert bindings[..|bindings|] == bindings;
      m := Match(secrets, Sorting.Sort(unresolved), refused, rejected);
    }
  }

  // ----- What a lookup means

  lemma CountLast(s: seq<Binding>, b: Binding, x: Binding)
    ensures multiset(s + [b])[x] == multiset(s)[x] + if x == b then 1 else 0
  {
  }

  /** A binding is in the list of its own fate as often as in the registry, and in no other list. */
  lemma {:induction false} HavingCount(bs: seq<Binding>, binary: string, c: Caller, fate: Fate, x: Binding)
    ensures multiset(Having(bs, binary, c, fate))[x] == if FateOf(x, binary, c) == fate then multiset(bs)[x] else 0
  {
    if bs != [] {
      var prefix, b := bs[..|bs| - 1], bs[|bs| - 1];
      HavingCount(prefix, binary, c, fate, x);
      assert bs == prefix + [b];
      HavingLast(prefix, b, binary, c, fate);
      CountLast(prefix, b, x);
      CountLast(Having(prefix, binary, c, fate), b, x);
    }
  }

  /** Each binding meets exactly one fate: the four lists together are the registry, rearranged. */
  lemma {:induction false} FatesPartition(bs: seq<Binding>, binary: string, c: Caller)
    ensures multiset(Having(bs, binary, c, Other)) + multiset(Having(bs, binary, c, Rejected))
            + multiset(Having(bs, binary, c, Refused)) + multiset(Having(bs, binary, c, Admitted)) == multiset(bs)
  {
    var other, rejected := multiset(Having(bs, binary, c, Other)), multiset(Having(bs, binary, c, Rejected));
    var refused, admitted := multiset(Having(bs, binary, c, Refused)), multiset(Having(bs, binary, c, Admitted));
    forall x ensures other[x] + rejected[x] + refused[x] + admitted[x] == multiset(bs)[x] {
      HavingCount(bs, binary, c, Other, x);
      HavingCount(bs, binary, c, Rejected, x);
      HavingCount(bs, binary, c, Refused, x);
      HavingCount(bs, binary, c, Admitted, x);
    }
  }

  lemma {:induction false} HavingConcat(a: seq<Binding>, b: seq<Binding>, binary: string, c: Caller, fate: Fate)
    ensures Having(a + b, binary, c, fate) == Having(a, binary, c, fate) + Having(b, binary, c, fate)
  {
    if b == [] {
      assert a + b == a;
    } else {
      var n := |b| - 1;
      HavingConcat(a, b[..n], binary, c, fate);
      assert (a + b)[..|a + b| - 1] == a + b[..n];
    }
  }

  lemma {:induction false} HavingHas(bs: seq<Binding>, binary: string, c: Caller, fate: Fate, b: Binding)
    ensures b in Having(bs, binary, c, fate) <==> b in bs && FateOf(b, binary, c) == fate
  {
    if bs != [] {
      HavingHas(bs[..|bs| - 1], binary, c, fate, b);
      assert bs == bs[..|bs| - 1] + [bs[|bs| - 1]];
    }
  }

  /** Putting in, or taking out, a binding that does not admit the caller, at any position, changes
      neither the secrets released nor the unresolved names; so reordering such bindings does not. */
  lemma OnlyAdmittedBindingsRelease(bs: seq<Binding>, i: nat, b: Binding, binary: string, c: Caller)
    requires i <= |bs| && FateOf(b, binary, c) != Admitted
    ensures var with := bs[..i] + [b] + bs[i..];
            && Resolve(with, binary, c).secrets == Resolve(bs, binary, c).secrets
            && Resolve(with, binary, c).unresolved == Resolve(bs, binary, c).unresolved
  {
    HavingConcat(bs[..i] + [b], bs[i..], binary, c, Admitted);
    HavingConcat(bs[..i], [b], binary, c, Admitted);
    HavingConcat(bs[..i], bs[i..], binary, c, Admitted);
    assert [b][..0] == [] && Having([b], binary, c, Admitted) == [];
    assert bs[..i] + bs[i..] == bs;
    assert Having(bs[..i], binary, c, Admitted) + [] == Having(bs[..i], binary, c, Admitted);
  }

  lemma {:induction false} SecretsOfEmpty(bs: seq<Binding>)
    ensures SecretsOf(bs) == [] <==> forall b :: b in bs ==> b.secrets == []
    ensures UnresolvedOf(bs) == [] <==> forall b :: b in bs ==> b.unresolved == []
  {
    if bs != [] {
      var prefix, last := bs[..|bs| - 1], bs[|bs| - 1];
      SecretsOfEmpty(prefix);
      assert bs == prefix + [last];
      assert forall b :: b in bs <==> b in prefix || b == last;
    }
  }

  lemma {:induction false} HavingNone(bs: seq<Binding>, binary: string, c: Caller, fate: Fate)
    ensures Having(bs, binary, c, fate) == [] <==> forall b :: b in bs ==> FateOf(b, binary, c) != fate
  {
    var had := Having(bs, binary, c, fate);
    forall b ensures b in had <==> b in bs && FateOf(b, binary, c) == fate { HavingHas(bs, binary, c, fate, b); }
    assert had != [] ==> had[0] in had;
  }

  /** A match is empty exactly when every binding for the binary was admitted and carries no secrets
      and no unresolved names. */
  lemma EmptyExactly(bs: seq<Binding>, binary: string, c: Caller)
    ensures Resolve(bs, binary, c).Empty() <==>
              forall b :: b in bs && FateOf(b, binary, c) != Other ==>
                            FateOf(b, binary, c) == Admitted && b.secrets == [] && b.unresolved == []
  {
    var admitted := Having(bs, binary, c, Admitted);
    forall b ensures b in admitted <==> b in bs && FateOf(b, binary, c) == Admitted {
      HavingHas(bs, binary, c, Admitted, b);
    }
    SecretsOfEmpty(admitted);
    SortedSize(UnresolvedOf(admitted));
    HavingNone(bs, binary, c, Refused);
    HavingNone(bs, binary, c, Rejected);
  }

  lemma SortedSize(s: seq<string>)
    ensures |Sorting.Sort(s)| == |s|
  {
    assert |multiset(Sorting.Sort(s))| == |multiset(s)|;
  }

  // ----- What a lookup yields, binding by binding

  /** What one more binding at the end adds to a lookup: an admitting one its secrets, after all others, and
      its unresolved names; a refusing one its name and reason; a rejected one its name. */
  lemma OneMoreBinding(bs: seq<Binding>, b: Binding, binary: string, c: Caller)
    ensures var m, m' := Resolve(bs, binary, c), Resolve(bs + [b], binary, c);
            var fate := FateOf(b, binary, c);
            && m'.secrets == (if fate == Admitted then m.secrets + b.secrets else m.secrets)
            && multiset(m'.unresolved) == (if fate == Admitted then multiset(m.unresolved) + multiset(b.unresolved)
                                           else multiset(m.unresolved))
            && m'.refused == (if fate == Refused then m.refused + [(b.name, Refuses(b.selector, c))] else m.refused)
            && m'.rejected == (if fate == Rejected then m.rejected + [b.name] else m.rejected)
            && Sorting.IsSorted(m'.unresolved)
    ensures Resolve([], binary, c).Empty()
  {
    CollectStep(bs, b, binary, c);
    Sorting.SortIsSorted(Collect(bs + [b], binary, c).unresolved);
    var u := Collect(bs, binary, c).unresolved;
    assert multiset(u + b.unresolved) == multiset(u) + multiset(b.unresolved);
  }

  // ----- Unknown never widens

  /** `c'` is `c` with its pod record forgotten, its path marked as not comparable, or both. */
  predicate KnowsLess(c': Caller, c: Caller) {
    && c'.cgroupPath == c.cgroupPath && c'.podUID == c.podUID && c'.containerID == c.containerID
    && (c'.pod == c.pod || c'.pod == None) && (c'.relative == c.relative || c'.relative)
  }

  lemma LessKnownLessAdmitted(b: Binding, binary: string, c: Caller, c': Caller)
    requires KnowsLess(c', c)
    ensures FateOf(b, binary, c') == FateOf(b, binary, c)
            || (FateOf(b, binary, c) == Admitted && FateOf(b, binary, c') == Refused)
  {
  }

  lemma {:induction false} UntouchedFates(bs: seq<Binding>, binary: string, c: Caller, c': Caller, fate: Fate)
    requires KnowsLess(c', c) && (fate == Rejected || fate == Other)
    ensures Having(bs, binary, c', fate) == Having(bs, binary, c, fate)
  {
    if bs != [] {
      UntouchedFates(bs[..|bs| - 1], binary, c, c', fate);
      LessKnownLessAdmitted(bs[|bs| - 1], binary, c, c');
    }
  }

  /** Knowing less about a caller never admits it to more, and every binding it loses that way moves
      to the refused ones; nothing else moves. */
  lemma {:induction false} UnknownNeverWidens(bs: seq<Binding>, binary: string, c: Caller, c': Caller)
    requires KnowsLess(c', c)
    ensures multiset(Having(bs, binary, c', Admitted)) <= multiset(Having(bs, binary, c, Admitted))
    ensures multiset(Having(bs, binary, c', Admitted)) + multiset(Having(bs, binary, c', Refused))
            == multiset(Having(bs, binary, c, Admitted)) + multiset(Having(bs, binary, c, Refused))
    ensures Having(bs, binary, c', Rejected) == Having(bs, binary, c, Rejected)
    ensures Having(bs, binary, c', Other) == Having(bs, binary, c, Other)
  {
    UntouchedFates(bs, binary, c, c', Rejected);
    UntouchedFates(bs, binary, c, c', Other);
    var a, a' := multiset(Having(bs, binary, c, Admitted)), multiset(Having(bs, binary, c', Admitted));
    var r, r' := multiset(Having(bs, binary, c, Refused)), multiset(Having(bs, binary, c', Refused));
    forall x ensures a'[x] <= a[x] && a'[x] + r'[x] == a[x] + r[x] {
      LessKnownLessAdmitted(x, binary, c, c');
      HavingCount(bs, binary, c, Admitted, x);
      HavingCount(bs, binary, c', Admitted, x);
      HavingCount(bs, binary, c, Refused, x);
      HavingCount(bs, binary, c', Refused, x);
    }
  }
}
