/** Pod records as the watcher keeps them (`internal/kube/pods.go`, the conversion from the API). */
module Pods {
  import opened Options
  import opened Text
  import Cgroup

  datatype Pod = Pod(uid: string, name: string, namespace: string, labels: map<string, string>,
                     containers: map<string, string>)

  datatype ContainerStatus = ContainerStatus(name: string, containerID: string)

  /** The parts of an API pod object the watcher reads. */
  datatype PodObject = PodObject(
    uid: string, name: string, namespace: string, labels: map<string, string>,
    statuses: seq<ContainerStatus>, initStatuses: seq<ContainerStatus>, ephemeralStatuses: seq<ContainerStatus>)

  const SCHEME_END := "://"

  function Index(s: string, t: string): Option<nat>
    decreases |s|
  {
    if HasPrefix(s, t) then Some(0)
    else if s == "" then None
    else
      var r := Index(s[1..], t);
      if r.Some? then Some(r.value + 1) else None
  }

  lemma IndexInRange(s: string, t: string)
    ensures Index(s, t).Some? ==> Index(s, t).value + |t| <= |s|
  {
  }

  function StripRuntimePrefix(id: string): string {
    var i := Index(id, SCHEME_END);
    IndexInRange(id, SCHEME_END);
    if i.Some? then ToLower(id[i.value + 3..]) else ToLower(id)
  }

  /** Status `i` contributes a name for container ID `id`. */
  predicate Names(all: seq<ContainerStatus>, i: int, id: string)
    requires 0 <= i < |all|
  {
    id != "" && all[i].name != "" && StripRuntimePrefix(all[i].containerID) == id
  }

  /** Status `i` is the last one to do so. */
  predicate LastNaming(all: seq<ContainerStatus>, i: int, id: string) {
    0 <= i < |all| && Names(all, i, id) && forall j :: i < j < |all| ==> !Names(all, j, id)
  }

  /** Each ID is mapped to the name the last status naming it carries; no other key exists. */
  ghost predicate IsContainerMap(all: seq<ContainerStatus>, m: map<string, string>) {
    && (forall id :: id in m ==> exists i :: LastNaming(all, i, id) && m[id] == all[i].name)
    && (forall i :: 0 <= i < |all| && all[i].name != "" && StripRuntimePrefix(all[i].containerID) != "" ==>
          StripRuntimePrefix(all[i].containerID) in m)
  }

  lemma StillLast(all: seq<ContainerStatus>, n: nat, i: int, x: string)
    requires n < |all| && LastNaming(all[..n], i, x) && !Names(all, n, x)
    ensures LastNaming(all[..n + 1], i, x)
  {
    var a, b := all[..n], all[..n + 1];
    assert Names(b, i, x) == Names(a, i, x);
    forall j | i < j < |b| ensures !Names(b, j, x) {
      if j < n { assert !Names(a, j, x); }
    }
  }

  lemma ContainerMapStep(all: seq<ContainerStatus>, n: nat, m: map<string, string>)
    requires n < |all| && IsContainerMap(all[..n], m)
    ensures var id := StripRuntimePrefix(all[n].containerID);
            IsContainerMap(all[..n + 1], if id == "" || all[n].name == "" then m else m[id := all[n].name])
  {
    var a, b := all[..n], all[..n + 1];
    var id := StripRuntimePrefix(all[n].containerID);
    var skip := id == "" || all[n].name == "";
    var m' := if skip then m else m[id := all[n].name];
    forall x | x in m' ensures exists i :: LastNaming(b, i, x) && m'[x] == b[i].name {
      if !skip && x == id {
        assert LastNaming(b, n, x);
      } else {
        var i :| LastNaming(a, i, x) && m[x] == a[i].name;
        StillLast(all, n, i, x);
        assert b[i] == a[i];
      }
    }
  }

  /** The watcher's record of an API object. */
  method ToPod(p: PodObject) returns (pod: Pod)
    ensures pod.uid == p.uid && pod.name == p.name && pod.namespace == p.namespace && pod.labels == p.labels
    ensures IsContainerMap(p.statuses + p.initStatuses + p.ephemeralStatuses, pod.containers)
    ensures "" !in pod.containers
  {
    var all := p.statuses + p.initStatuses + p.ephemeralStatuses;
    var containers: map<string, string> := map[];
    for i := 0 to |all|
      invariant IsContainerMap(all[..i], containers)
      invariant "" !in containers
    {
      ContainerMapStep(all, i, containers);
      var id := StripRuntimePrefix(all[i].containerID);
      if id == "" || all[i].name == "" { continue; }
      containers := containers[id := all[i].name];
    }
    assert all[..|all|] == all;
    return Pod(p.uid, p.name, p.namespace, p.labels, containers);
  }

  lemma SameContainers(all: seq<ContainerStatus>, m: map<string, string>, m': map<string, string>, id: string)
    requires IsContainerMap(all, m) && IsContainerMap(all, m') && id in m
    ensures id in m' && m'[id] == m[id]
  {
    var i :| LastNaming(all, i, id) && m[id] == all[i].name;
    assert id in m';
    var j :| LastNaming(all, j, id) && m'[id] == all[j].name;
    assert !(i < j) && !(j < i);
  }

  /** The statuses determine the container map. */
  lemma ContainerMapUnique(all: seq<ContainerStatus>, m: map<string, string>, m': map<string, string>)
    requires IsContainerMap(all, m) && IsContainerMap(all, m')
    ensures m == m'
  {
    forall id | id in m ensures id in m' && m'[id] == m[id] { SameContainers(all, m, m', id); }
    forall id | id in m' ensures id in m { SameContainers(all, m', m, id); }
  }

  lemma {:induction false} NoSchemeInside(s: string, t: string)
    requires ':' !in s
    ensures Index(s + t, SCHEME_END) ==
            if Index(t, SCHEME_END).Some? then Some(|s| + Index(t, SCHEME_END).value) else None
  {
    if s == "" {
      assert s + t == t;
    } else {
      assert (s + t)[0] == s[0];
      NoPrefix(s + t, SCHEME_END, 0);
      assert (s + t)[1..] == s[1..] + t;
      NoSchemeInside(s[1..], t);
    }
  }

  lemma StripsToLower(scheme: string, id: string)
    requires ':' !in scheme && ':' !in id
    ensures StripRuntimePrefix(scheme + SCHEME_END + id) == ToLower(id) == StripRuntimePrefix(id)
  {
    assert scheme + SCHEME_END + id == scheme + (SCHEME_END + id);
    NoSchemeInside(scheme, SCHEME_END + id);
    assert (SCHEME_END + id)[..3] == SCHEME_END;
    assert (scheme + (SCHEME_END + id))[|scheme| + 3..] == id;
    NoSchemeInside(id, "");
    assert id + "" == id;
  }

  /** Whatever the runtime's scheme and whatever the letter case on either side, the key built from
      an API status ID is the container ID read from any cgroup path that carries the same ID. */
  lemma KeyMatchesCgroupPath(scheme: string, apiId: string, sp: Cgroup.Spelling)
    requires ':' !in scheme && ':' !in apiId && ToLower(apiId) == ToLower(sp.id)
    requires Cgroup.IsSpelling(sp)
    ensures StripRuntimePrefix(scheme + SCHEME_END + apiId) == Cgroup.PodOf(Cgroup.PathOf(sp)).container
    ensures StripRuntimePrefix(apiId) == Cgroup.PodOf(Cgroup.PathOf(sp)).container
  {
    Cgroup.EverySpellingParses(sp);
    StripsToLower(scheme, apiId);
  }
}
