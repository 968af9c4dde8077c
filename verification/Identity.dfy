/** Who a caller is (`internal/identity/identity.go`). */
module Identity {
  import opened Options
  import opened Registry
  import opened PodCache
  import Cgroup
  import Text

  /** The pod watcher as a caller of Lookup sees it. */
  datatype PodView = PodView(synced: bool, byUID: Cache)

  /** A caller, and whether identifying it ran into an error. */
  datatype Identified = Identified(caller: Caller, failed: bool)

  const NOBODY := Caller("", false, "", "", None)

  /** `file` is the content of the process's cgroup file, None if it cannot be read. */
  function Identify(file: Option<string>, pods: Option<PodView>): Identified {
    var path := if file.Some? then Cgroup.PathIn(file.value) else None;
    if path.None? then Identified(NOBODY, true)
    else
      var ref := Cgroup.PodOf(path.value);
      var caller := Caller(path.value, Cgroup.IsRelative(path.value), ref.uid, ref.container, None);
      if pods.None? || ref.uid == "" then Identified(caller, false)
      else if !pods.value.synced then Identified(caller, true)
      else if ref.uid !in pods.value.byUID then Identified(caller, true)
      else Identified(caller.(pod := Some(pods.value.byUID[ref.uid])), false)
  }

  /** The caller's pod record is the one a synced cache holds under the UID parsed from its path. */
  ghost predicate Attributed(file: Option<string>, pods: Option<PodView>, c: Caller) {
    && file.Some? && Cgroup.PathIn(file.value) == Some(c.cgroupPath)
    && pods.Some? && pods.value.synced
    && c.podUID == Cgroup.PodOf(c.cgroupPath).uid && Cgroup.IsCanonicalUid(c.podUID)
    && c.podUID in pods.value.byUID && c.pod == Some(pods.value.byUID[c.podUID])
  }

  /** What the path says is reported whatever becomes of the pod. A caller carries a pod exactly when it
      can be attributed to one. Identification fails exactly
      when no path can be read, or the path names a pod that the watcher cannot vouch for; so a
      caller without a pod and without an error is in no pod at all, or there is no watcher. */
  lemma PodMeansAttributed(file: Option<string>, pods: Option<PodView>)
    ensures var r := Identify(file, pods);
            && (file.Some? && Cgroup.PathIn(file.value).Some? ==>
                  var path := Cgroup.PathIn(file.value).value;
                  r.caller == Caller(path, Cgroup.IsRelative(path), Cgroup.PodOf(path).uid,
                                     Cgroup.PodOf(path).container, r.caller.pod))
            && (r.caller.pod.Some? <==> Attributed(file, pods, r.caller))
            && (r.failed <==> (file.None? || Cgroup.PathIn(file.value).None?
                               || (pods.Some? && r.caller.podUID != "" && r.caller.pod.None?)))
  {
    var path := if file.Some? then Cgroup.PathIn(file.value) else None;
    if path.Some? { Cgroup.PodOfIsCanonical(Text.Split(path.value, '/'), 0); }
  }
}
