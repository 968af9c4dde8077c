# KernelSeal in Dafny

KernelSeal hands secrets to a process over a unix socket and keeps the kernel's
`protected_pids` map in step with the processes that hold secrets. This project models the
parts of it that decide who gets what and for how long it stays guarded, and proves what they
promise, for all inputs and all runs.

- **Protection lifecycle** (`KernelMaps`, `Lifecycle`, `LifecycleProofs`, `LifecycleReuse`,
  `LifecycleHistory`, `LifecycleMatch`, `LifecycleCleanup`, `Reconcile`). The two kernel maps with the code on both
  sides of them, and a step machine that interleaves process start and exit thread by thread, execs, the exit tracepoint and its
  event queue, LRU eviction, any number of socket handshakes, and the sweep. The machine's steps
  use the same functions that the methods of `Manager` and `ExecMonitor` are proved against.
- **Pod cache** (`Pods`, `PodCache`). The list-watch cache against a server history that yields
  lists and event streams.
- **Authorization** (`Registry`, `Policy`, `Identity`, `Servability`, `Server`, `Authorization`). From the
  configuration string through the rejected bindings, the caller's identity and the selector match
  to the response.
- **Parsers and fixed-width arithmetic** (`Cgroup`, `ProcStat`, `Decimal`, `LsmHooks`), the shim
  (`Shim`), and the library functions they rest on (`Text`, `Sorting`, `Options`, `Widths`).

`dafny verify dfyconfig.toml` checks the whole project.

## Hypotheses, and where the code does not keep a promise by itself

- **PID reuse.** The exit handler, the rollback and the sweep delete by PID only, so protection of
  a process survives a whole run only if its PID was not issued while a queued exit event, a
  sweep's dead verdict, or a handshake between its two start-time reads still named the PID's
  earlier owner. `ProtectionPersists` assumes this; `ReissueSafeIffUnnamed` proves that the
  assumption is exact in every reachable state, a full map included, and `ReuseCanLoseProtection`
  is a run from the start that loses a live, served process.
- **Reading `/proc`.** A start-time read fails only for a process without a live thread; for a process
  whose threads have all left it may go either way. The sweep's stat of `/proc/<n>` may also succeed
  when no process has the number, because it is by then some thread's ID; `SweepReclaims` says what
  a sweep does with the entries it does not find.
- **Identity and the first read.** The caller is identified and matched before the first start-time
  read, and nothing ties the two together. `ServedIsMatchedIffNotReissued` says exactly when the
  process served is the one matched; `MatchedAndServedCanDiffer` is a run in which it is not.
- **Start times.** Successive owners of one PID have strictly increasing start times.
- **Failed re-list.** After an expiry the loop goes back to watching with an empty version if the
  list fails. The cache theorem is about runs in which that list succeeds;
  `FailedRelistExact` says exactly when the other branch still ends in agreement,
  `StaleUntilMentioned` what later streams repair, and `FailedRelistKeepsDeletedPod` is a run in
  which a deleted pod stays.
- **Bindings that are not rejected.** The comment on `rejectionFor` says that a binding it passes can
  serve someone. `ServableIffReachable` gives the exact condition on the selector's binary and path,
  for the paths the kernel prints: "/", or "/" followed by segments that are neither empty nor ".".
  `DottedPathServesNobody`, `SlashlessPathServesNobody` and `PathedBinaryServesNobody` are selectors
  that are passed and can never be served. `DoubledSlashAdmitsRoot` is one that is passed although
  it selects the root cgroup.
- **Thread directories.** The file hook takes the name of the directory the file is in for the PID. Under
  `/proc/<pid>/task/<tid>` that is the thread's ID: `ThreadDirectoryGoesByTid` says exactly when an
  access there is refused, `ThreadDirectoryNotGuarded` is one that is not.
- **Nested cgroup paths.** Acceptance of the inner selector's path as written, trailing slash
  included, does not make selectors nest (`NestingNeedsTheTrimmedPath`); acceptance of its trimmed
  path does, and is necessary (`PathSelectorsNest`).
- **Names containing "=".** The merged environment sets each released name exactly once if and
  only if no released name contains "=" (`OneSettingPerName`); `EqualsInNameSplitsElsewhere` says what
  a name with "=" sets instead.
- **Retries.** The shim's comment says that only a connection failure is retried. The code also
  retries when sending the request or reading the response fails with a network error; the model
  follows the code. `RepeatsOnlyDialsExactly` says exactly when the comment holds of a run, and
  `RepeatsAfterFailedRead` is a run of which it does not.

Calls into the kernel and the network appear as parameters: whether a map operation succeeds, which
entry an LRU insertion evicts, whether a ring-buffer reservation succeeds, the order in which Go
visits a map, how long a request takes, what a file contains.

## Model

| member | source | states |
|---|---|---|
| `LifecycleProofs.ProtectionPersists` | internal/server/server.go:402-436 | in every state of every run that is safe in the reuse of PIDs, every process with a live thread that was answered Protected = true is in the protected map |
| `LifecycleReuse.ReissueSafeIffUnnamed` | cmd/main.go:363-372 | from every reachable state, re-issuing a PID keeps that promise in all continuations if and only if nothing names its earlier owner, however full the map is |
| `LifecycleReuse.ReuseCanLoseProtection` | cmd/main.go:363-372 | a run from the initial state, through a re-issued PID whose exit event is still queued, in which a live process answered Protected = true is not in the map |
| `LifecycleReuse.MakeRoom` | internal/reconcile/reconcile.go:95-117 | from any state in which something names a PID's earlier owner, some run takes any other entry out of the map and leaves what names the PID in place |
| `LifecycleReuse.MapWithinCapacity` | internal/bpf/loader.go:243-255 | no run ever puts more entries in the protected map than it has room for |
| `LifecycleProofs.StepKeeps` | internal/reconcile/reconcile.go:95-117 | the invariant behind it is kept by every step of the machine: whatever is about to delete a PID names an owner with no live thread, and a handshake that may roll back pins its live owner |
| `LifecycleReuse.HandshakeRun` | internal/server/server.go:402-444 | an uninterrupted handshake of a live process, with room in the map, ends served and protected and leaves processes, queue and sweep as they were |
| `LifecycleReuse.RollbackRun` | internal/server/server.go:421-428 | a handshake that snapshotted an earlier owner can run on to delete the PID whoever owns it now |
| `LifecycleHistory.EqualReadingsOneOwner` | internal/server/peer.go:40-46 | two equal start-time readings of a PID mean one owner at every moment between them, under any interleaving and reuse |
| `LifecycleHistory.ServedToOneProcess` | internal/server/server.go:402-444 | a response that released secrets was preceded, in order, by first read, ProtectPID, TrackPID, second read and reply, one process owning the PID from the first read to the second; with protection required ProtectPID had succeeded |
| `LifecycleMatch.ServedIsMatchedIffNotReissued` | internal/server/server.go:315-404 | the process that was served is the one that owned the PID when the caller was identified and matched if and only if the PID was not issued again between the match and the first start-time read |
| `LifecycleMatch.MatchedAndServedCanDiffer` | internal/server/server.go:315-404 | a run, safe in the reuse of PIDs, in which the PID's first owner is matched and its second is served |
| `LifecycleHistory.SecretsImplyProtection` | internal/server/server.go:430-444 | with protection required, every live process ever handed secrets is in the protected map |
| `LifecycleHistory.ExitEventExactlyWhenDead` | bpf/exec_monitor.bpf.c:269-319 | a step queues an exit event if and only if it is the exit tracepoint of a tracked thread group with no live thread and the event is monitored and fits; it then uses up the group's entry |
| `LifecycleHistory.AtMostOneExitPerEntry` | bpf/exec_monitor.bpf.c:283-289 | in every run, the exit events ever queued for a PID plus its open entry never exceed the entries ever created for it |
| `LifecycleHistory.SiblingExitsQueueNothing` | bpf/exec_monitor.bpf.c:274-281 | while a thread of the group stays live, as during execve, no exit event is queued for its PID however many siblings exit |
| `LifecycleHistory.ThreadsConserved` | bpf/exec_monitor.bpf.c:254-319 | in every run, the threads of a PID, live or not yet past the exit tracepoint, are those started and cloned less those whose tracepoint has fired |
| `LifecycleCleanup.QueuedExitReleases` | cmd/main.go:363-372 | in every run, once an exit event for a PID is queued the PID is out of the map as soon as the queue holds none for it, unless it is protected anew or a delete of that PID fails |
| `LifecycleCleanup.SweepReclaims` | internal/reconcile/reconcile.go:1-10 | in every run, an entry is out of the map when a sweep that listed it is over, whatever became of its seen record and exit event, unless the sweep found a process or thread with its number, the PID was protected anew or its delete failed |
| `KernelMaps.Manager.ProtectPID` | internal/bpf/loader.go:243-255 | succeeds exactly when the map is loaded, the kernel agrees and there is room or the key is present; then the PID is in the map, else nothing changes |
| `KernelMaps.Manager.UnprotectPID` | internal/bpf/loader.go:260-273 | an absent key or an unloaded map is not an error; on success the PID is gone and nothing else |
| `KernelMaps.Manager.TrackPID` | internal/bpf/loader.go:279-292 | puts the PID in the seen map with stamp 0, other entries kept except those the LRU evicts |
| `KernelMaps.Manager.ListProtectedPIDs` | internal/bpf/loader.go:296-316 | every protected PID exactly once, in some order; an error only if the kernel's iteration fails |
| `KernelMaps.MapOperations` | internal/bpf/loader.go:243-273 | the map takes a PID it holds, or a new one while it has fewer than 4096; a put adds exactly that PID and a delete removes exactly it |
| `KernelMaps.PutKeepsOthers` | internal/bpf/loader.go:279-292 | a put into the seen map writes its stamp and keeps every other entry, with its stamp, except the evicted ones |
| `KernelMaps.ExecStamps` | bpf/exec_monitor.bpf.c:96-248 | an exec less than 100 ms after the entry's stamp, in 64-bit time, changes nothing; any other writes the new stamp and keeps the other entries |
| `KernelMaps.ExitReported` | bpf/exec_monitor.bpf.c:269-289 | an exit is reported if and only if the PID is tracked and no thread is live or that cannot be read |
| `KernelMaps.HandleExecEvent` | cmd/main.go:353-374 | an exit event releases its PID unconditionally, an exec event changes no map |
| `KernelMaps.ExecMonitor.HandleExec` | bpf/exec_monitor.bpf.c:96-248 | afterwards the PID is tracked; a duplicate within 100 ms neither refreshes the stamp nor sends an event |
| `KernelMaps.ExecMonitor.HandleSchedProcessExit` | bpf/exec_monitor.bpf.c:254-319 | only the last thread of a tracked group removes the entry, and it queues an event if monitored and reserved; an unreadable signal struct counts as last |
| `Reconcile.Reconciler.Sweep` | internal/reconcile/reconcile.go:95-117 | no live PID and no PID whose delete fails leaves the map, and everything else in it does; the count is the drop in size; the counter grows by it; a failed list changes nothing |
| `Reconcile.Reconciler.Run` | internal/reconcile/reconcile.go:58-83 | over any series of ticks the counter is the total number of entries dropped, modulo 2^64, which is none without the LSM |
| `PodCache.EventKeepsAgreement` | internal/kube/pods.go:479-511 | applying the next event, even one applied before, keeps every cached UID equal to the server's record at some version between the position and the highest version applied |
| `PodCache.EventTouchesOneEntry` | internal/kube/pods.go:479-511 | a change touches the entry of its own UID only, one without a UID and a bookmark touch none |
| `PodCache.CacheAgreesWithServer` | internal/kube/pods.go:400-496 | after every run of lists, streams, clean ends, failures and successful re-lists, and at every point of a further stream, that agreement holds; when the position reaches the highest version applied, the cache is the server's pod set there |
| `PodCache.ReplayConverges` | internal/kube/pods.go:412-433 | wherever an error left the resume version, replaying from it to any version not below the highest applied ends in exactly the server's pod set |
| `PodCache.FailedRelistExact` | internal/kube/pods.go:442-447 | after a lost watch, a failed re-list and the announcements of a watch with an empty version, the cache equals the server's pod set if and only if every pod cached before still exists |
| `PodCache.StaleUntilMentioned` | internal/kube/pods.go:442-477 | that watch may go on with changes before it ends, and the loop resumes from the last of them, or else from the last announced object's own version; once it or a further stream has passed the announced state, a UID is cached as the server has it if and only if it is not a deleted pod that no event has mentioned since |
| `PodCache.FailedRelistKeepsDeletedPod` | internal/kube/pods.go:442-447 | a run in which a deleted pod stays cached after a failed re-list |
| `PodCache.Watcher.List` | internal/kube/pods.go:370-395 | replaces the cache by exactly the listed pods that have a UID |
| `PodCache.Watcher.Start` | internal/kube/pods.go:163-188 | the cache counts as synced only after a list succeeded, and the watch starts at that list's version |
| `PodCache.Watcher.WatchOnce` | internal/kube/pods.go:462-496 | applies the stream's events in order and returns the last version seen |
| `PodCache.Watcher.WatchLoop` | internal/kube/pods.go:400-452 | goes through exactly the states the cache theorem is about, including the resume version after a clean end, another error, an expiry and a failed list |
| `PodCache.TurnByTurn` | internal/kube/pods.go:400-452 | error by error, what a turn leaves: an ERROR event or status 410 gives the resume version up, any other error keeps it, a clean end moves it to the last event; only a list that succeeds replaces the cache; the back-off is 1 after a success and else doubles up to 30 |
| `Pods.ToPod` | internal/kube/pods.go:253-281 | maps each container ID to the name in the last status that names it, keys nothing by the empty string |
| `Pods.ContainerMapUnique` | internal/kube/pods.go:269-278 | two maps that fit that description of the same statuses are equal |
| `Pods.KeyMatchesCgroupPath` | internal/kube/pods.go:283-290 | for any runtime scheme and letter case, the key built from an API status ID is the container ID parsed from any cgroup path that carries the same ID |
| `Cgroup.MatchPodComplete` | internal/cgroup/cgroup.go:204-205 | a segment of the pod pattern's language yields its UID, and so has only one |
| `Cgroup.MatchPodSound` | internal/cgroup/cgroup.go:204-205 | a segment that yields a UID is in the pattern's language |
| `Cgroup.MatchContainerComplete` | internal/cgroup/cgroup.go:210-211 | a segment of the container pattern's language yields its ID, and so has only one |
| `Cgroup.MatchContainerSound` | internal/cgroup/cgroup.go:210-211 | a segment that yields an ID is in the pattern's language |
| `Cgroup.ParsePod` | internal/cgroup/cgroup.go:231-253 | the first pod segment and the segment directly below it decide; results are canonical, and no container without a pod |
| `Cgroup.PodOfIsCanonical` | internal/cgroup/cgroup.go:225-253 | every non-empty UID is dashed lower-case hex in the 8-4-4-4-12 form and every non-empty container ID is 12 to 64 lower-case hex digits |
| `Cgroup.UnparsedParts` | internal/cgroup/cgroup.go:231-253 | a path without a pod segment has no pod, and a pod whose next segment is no container's has no container |
| `Cgroup.EverySpellingParses` | internal/cgroup/cgroup.go:193-211 | whatever is above, ".." included, whatever optional parts the two segments have and whatever is below, a path parses to the canonical forms of its UID and container ID |
| `Cgroup.DriversAgree` | internal/cgroup/cgroup.go:193-203 | the systemd and cgroupfs spellings of one UUID and container ID parse to the same dashed lower-case pair |
| `Cgroup.PathFor` | internal/cgroup/cgroup.go:135-161 | the unified entry if there is one, else the first v1 path that is not empty, else an error |
| `Cgroup.PathPreference` | internal/cgroup/cgroup.go:142-161 | on the file's text: the first line that begins with "0::" gives the path wherever it stands; without one, the first line with a v1 path does; without either there is none |
| `Cgroup.NoV1Path` | internal/cgroup/cgroup.go:152-158 | a line has no v1 path if and only if it has fewer than two colons or nothing after the second |
| `Text.TrimSpaceExact` | internal/cgroup/cgroup.go:142-142 | trimming removes exactly the white space at the two ends |
| `Cgroup.UnifiedWins` | internal/cgroup/cgroup.go:144-150 | the unified entry is chosen wherever it stands among the lines |
| `Cgroup.V1PathIsThirdField` | internal/cgroup/cgroup.go:152-158 | a v1 line yields everything after its second colon, and nothing if that is empty |
| `Registry.PathMatchIsSegmentPrefix` | internal/secrets/registry.go:112-120 | the string test holds exactly when the trimmed path is not empty and its segments are a prefix of the caller's |
| `Registry.PathMatchDescends` | internal/secrets/registry.go:112-113 | the accepted set is closed under descendants |
| `Registry.PathSelectorsNest` | internal/secrets/registry.go:114-120 | one path selector accepts everything another does if and only if it accepts the other's trimmed path |
| `Registry.NestingNeedsTheTrimmedPath` | internal/secrets/registry.go:115-119 | three paths for which acceptance does not compose without trimming |
| `Registry.Admits` | internal/secrets/registry.go:75-110 | verdict and reason are those of the fixed order of constraints, whatever order the labels are visited in |
| `Registry.AdmitsIffAllMet` | internal/secrets/registry.go:75-110 | a selector admits exactly the callers that meet all its constraints, paths compared segment by segment and a missing label read as empty |
| `Registry.ReasonIsFirstUnmet` | internal/secrets/registry.go:75-110 | the reason for a refusal is the first unmet constraint in the order path, namespace, labels, container |
| `Registry.FatesExactly` | internal/secrets/registry.go:211-233 | a binding without a binary is for every binary; of those that apply, the rejected ones are rejected whoever asks, and exactly those whose constraints are all met admit |
| `Registry.ContainerSelectorExact` | internal/secrets/registry.go:103-107 | a container selector admits a caller if and only if the last status naming the caller's container ID carries the selected name |
| `Registry.Store.Lookup` | internal/secrets/registry.go:211-237 | secrets and sorted unresolved names of the admitted bindings in order, and the refused and rejected ones by name |
| `Registry.OneMoreBinding` | internal/secrets/registry.go:211-237 | what one more binding adds: an admitting one its secrets after all others and its unresolved names, a refusing one its name and reason, a rejected one its name, any other nothing |
| `Registry.FatesPartition` | internal/secrets/registry.go:206-237 | every binding is in exactly one of the admitted, refused, rejected and other lists, with its multiplicity |
| `Registry.OnlyAdmittedBindingsRelease` | internal/secrets/registry.go:216-233 | inserting or removing a binding that does not admit the caller, at any position, changes neither the released secrets nor the unresolved names |
| `Registry.EmptyExactly` | internal/secrets/registry.go:167-172 | a match is empty if and only if every binding for the binary was admitted and carries no secrets and no unresolved names |
| `Registry.UnknownNeverWidens` | internal/secrets/registry.go:88-107 | forgetting the pod record or marking the path relative admits to no more, and every binding lost moves to the refused ones; nothing else moves |
| `Sorting.SortIsSorted` | internal/secrets/registry.go:235-235 | the unresolved names come out in ascending order |
| `Sorting.LeIsLexicographic` | internal/secrets/registry.go:235-235 | the order is by the first character in which two names differ, or by being a prefix |
| `Policy.ResolveRefs` | internal/policy.go:363-371 | splits a binding's references into resolved secrets and unresolved names, in order |
| `Policy.LoadSecrets` | internal/policy.go:339-391 | the registry holds one binding per configured entry, rejected ones included |
| `Policy.LoadedExactly` | internal/policy.go:347-388 | entry by entry, the binding's name, or one made from its position, its selector and rejection, the readable references as secrets and the others as unresolved names |
| `Policy.RefsInOrder` | internal/policy.go:363-371 | secrets and unresolved names keep the order of the references |
| `Policy.PassedExactly` | internal/policy.go:400-435 | in each mode, which selectors are not rejected, field by field |
| `Policy.RefsConserved` | internal/policy.go:363-371 | every configured reference ends up released or unresolved, never both and never dropped |
| `Identity.PodMeansAttributed` | internal/identity/identity.go:46-83 | the caller reports what its path says; it carries a pod if and only if a synced cache holds it under the UID parsed from its path; identification fails exactly when no path is readable or a named pod cannot be vouched for |
| `Servability.ServableIffReachable` | internal/policy.go:393-438 | under preferred and required, a selector that is not rejected admits some request of a caller with a pod, placed in a cgroup as the kernel prints it, if and only if its binary is a bare name and its trimmed path, if any, begins with "/", has no newline and no later segment that is empty, "." or "..", and, if it names a container, goes below a pod only through a container segment; if the path fails it admits nobody, unless the trimmed path is "/" |
| `Servability.AskedForIffNameable` | internal/server/server.go:309-313 | in any mode, some request is for the selector's binary if and only if that contains no "/" and is not "." |
| `Servability.UnrootedServesNoPod` | internal/cgroup/cgroup.go:40-72 | for every cgroup file with a path in the kernel's form and every pod cache, a path selector not in that form refuses the caller, unless both are "/", and then the caller has no pod |
| `Servability.UnreachableServesNobody` | internal/secrets/registry.go:75-110 | whatever the cgroup file says and whatever the pod cache holds, a selector that fails that condition refuses the caller |
| `Servability.ReachableServes` | internal/identity/identity.go:46-83 | for a selector that meets the condition, a cgroup file with a path in the kernel's form and a pod cache under which the caller is identified, has a pod and is admitted |
| `Servability.DottedPathServesNobody` | internal/policy.go:393-438 | a path selector through ".." is not rejected under either mode and refuses every caller |
| `Servability.SlashlessPathServesNobody` | internal/policy.go:393-438 | the path selector "kubepods" is not rejected and refuses every caller in a cgroup the kernel prints |
| `Servability.PathedBinaryServesNobody` | internal/policy.go:393-438 | a selector whose binary is a path is not rejected and no request is for it |
| `Servability.DoubledSlashAdmitsRoot` | internal/policy.go:405-413 | the path selector "//" is not rejected as the root cgroup and admits exactly the callers in the root cgroup |
| `Servability.PathHasNoNewline` | internal/cgroup/cgroup.go:135-161 | no path read from a cgroup file, of either kind of line, contains a newline |
| `Server.BaseIsLastElement` | internal/server/server.go:309-313 | the binary name is the last element of the requested path, with or without a trailing slash |
| `Server.BaseExactly` | internal/server/server.go:309-313 | the base of every path, any number of trailing slashes aside; a request names no binary if and only if its path is empty, all slashes, or ends in the element "." |
| `Server.Server.Authorize` | internal/server/server.go:305-400 | decides in the order empty binary, identity, empty match, refusal, rejection, unresolved, release |
| `Server.DecidedExactly` | internal/server/server.go:305-400 | an if-and-only-if for each decision, over the bindings: secrets are due if and only if the request passes and some binding that admits the caller has any; otherwise a refused binding, then a rejected one, then an unreadable one decides |
| `Server.AnsweredExactly` | internal/server/server.go:402-483 | an if-and-only-if for each answer: due secrets leave if and only if the two start-time reads succeed and agree and the process was marked or need not be |
| `Server.Server.Deliver` | internal/server/server.go:402-483 | whole effect on the maps in each outcome: untouched if the caller vanished, rolled back if recycled, marked before a release, and under required protection no release unmarked |
| `Server.Server.BuildEnv` | internal/server/server.go:438-443 | the environment of the matched secrets |
| `Server.Server.Handle` | internal/server/server.go:305-483 | the response is the specified one, denials before the handshake leave the maps alone, and released secrets leave the PID protected when that is required |
| `Server.EnvHasLastValues` | internal/server/server.go:438-443 | a name is released exactly when some secret carries it, with the value of the last one |
| `Server.MachinePhasesAreHandle` | internal/server/server.go:402-436 | with any interference between its steps, the machine's handshake phases end in the same outcome as the handler's decision on the same readings |
| `Authorization.ReleasedByAdmittedBinding` | internal/secrets/registry.go:211-237 | every released variable is a secret of a binding that admitted the caller |
| `Authorization.ConfiguredExactly` | cmd/main.go:113-129 | protection is required unless the mode word is disabled or audit, callers are identified unless podIdentity is disabled, and pod identity is required unless it is empty, preferred or disabled |
| `Authorization.RequiredReleasesOnlyToAttributedPods` | internal/server/server.go:315-341 | for every mode word, every podIdentity string that is not empty, preferred or disabled after trimming and lower-casing, every list of bindings and every request, each released secret comes from a non-rejected, pod-scoped binding that admits a caller whose record a synced cache holds under exactly the UID parsed from its path |
| `Authorization.DisabledIgnoresCaller` | cmd/main.go:113-129 | in disabled mode no response depends on who asks |
| `Authorization.DisabledGoesByBinary` | internal/policy.go:422-429 | in disabled mode every released secret comes from a binding that names exactly the requested binary and no pod |
| `Authorization.NoSilentStart` | internal/server/server.go:343-400 | a process is let start without secrets only if every binding for its binary admitted it and had none; under required protection not even an unreadable one is passed over |
| `Authorization.AttributedToAServerRecord` | internal/identity/identity.go:69-82 | the record a caller is attributed to is one the API server held for that UID at some version between the stream position and the highest applied |
| `LsmHooks.Hooks.FileOpen` | bpf/lsm_file_protect.bpf.c:131-206 | refuses and logs as specified on the eight policy bytes, an event being queued only if it can be reserved |
| `LsmHooks.Hooks.PtraceAccessCheck` | bpf/lsm_file_protect.bpf.c:210-247 | the same for ptrace |
| `LsmHooks.PolicyBytes` | internal/policy.go:494-519 | the eight bytes written for a policy, offset by offset; only the mode words disabled and audit do not enforce |
| `LsmHooks.FileVerdictOnBytes` | bpf/lsm_file_protect.bpf.c:131-206 | for any eight bytes, offset by offset, when an open is refused, when an event is tried, and what it says |
| `LsmHooks.PtraceVerdictOnBytes` | bpf/lsm_file_protect.bpf.c:210-247 | the same for ptrace |
| `LsmHooks.FileHookFollowsSwitches` | internal/policy.go:494-519 | for every policy and every open of `/proc/<pid>/<file>` with a guarded file name, the decision on the bytes written is the one computed from the configured switches |
| `LsmHooks.ThreadDirectoryGoesByTid` | bpf/lsm_file_protect.bpf.c:67-99 | under `/proc/<pid>/task/<tid>` the decision is that for the thread's ID; an access forbidden for the process is refused if and only if the map holds the thread's ID too and the opener is not exempt as its own reader |
| `LsmHooks.ThreadDirectoryNotGuarded` | bpf/lsm_file_protect.bpf.c:67-99 | an access that is refused in the directory of a protected process and allowed in that of its second thread |
| `LsmHooks.PtraceHookFollowsSwitches` | bpf/lsm_file_protect.bpf.c:218-246 | the same for ptrace, which audit_all does not affect |
| `LsmHooks.OtherFilesAllowed` | bpf/lsm_file_protect.bpf.c:50-64 | other files, and directories that are not numbers, are left alone under any bytes |
| `LsmHooks.AuditShadowsEnforce` | bpf/lsm_file_protect.bpf.c:188-199 | with audit_all off, audit mode tries an event for exactly the accesses enforce mode denies, through both hooks |
| `Decimal.GetProcDirPid` | bpf/lsm_file_protect.bpf.c:83-99 | wrapping at every digit gives the value of the first fifteen bytes modulo 2^32, and 0 if one of them is not a digit |
| `Decimal.PidNameRoundTrip` | bpf/lsm_file_protect.bpf.c:88-99 | the printed name of every PID is read back exactly, with no wrap on the way |
| `Decimal.ValueOfPrint` | test/integration/bpf_integration_test.go:279-291 | reading inverts printing, and every prefix denotes no more |
| `Decimal.Itoa` | test/integration/bpf_integration_test.go:279-291 | prints every 32-bit value, and the ten-byte buffer never underflows |
| `ProcStat.StartTimeIsField22` | internal/server/peer.go:47-70 | for every command name, spaces and parentheses included, the result is field 22 of the line, the twentieth after the name; a short tail or a field that is not a 64-bit number is an error and never another field |
| `ProcStat.FieldAfterName` | internal/server/peer.go:55-69 | fields are counted from the second character after the last closing parenthesis, whatever the first is |
| `ProcStat.MalformedIsError` | internal/server/peer.go:55-58 | text without a closing parenthesis, or with at most one character after it, is an error |
| `ProcStat.StartTimeRoundTrip` | internal/server/peer.go:53-69 | a printed 64-bit start time is read back as it was |
| `Shim.MergeEnv` | cmd/kernelseal-exec/main.go:218-238 | the inherited entries that are not shadowed, in order, then one entry per released variable in some order |
| `Shim.OneSettingPerName` | cmd/kernelseal-exec/main.go:216-238 | in any iteration order, each released name is set exactly once if and only if no released name contains "="; then all other names are set as before |
| `Shim.MergedEnvironmentReads` | cmd/kernelseal-exec/main.go:216-238 | if no released name contains "=", a process reads every released variable with its released value and every other as it was inherited |
| `Shim.InheritedKept` | cmd/kernelseal-exec/main.go:222-232 | exactly the inherited entries that begin with a released name and "=" are dropped |
| `Shim.EqualsInNameSplitsElsewhere` | cmd/kernelseal-exec/main.go:216-238 | whatever was inherited, a released name with "=" in it is not set, and the part before the "=" is set once more |
| `Shim.ExecEnvironment` | internal/server/server.go:438-444 | in the exec'd environment every released name is set once and read as the value of the last admitted secret of that name, and every other name is read as inherited |
| `Shim.FetchSecrets` | cmd/kernelseal-exec/main.go:147-168 | under any clock, an attempt is followed by another if and only if it ended in a connect error and the clock after it plus the interval is before the deadline; the result is that of the last attempt, outcome by outcome, fetched only if it was served and unreachable only when time has run out; at most ceil(timeout / interval) attempts are made |
| `Shim.RetriesExactly` | cmd/kernelseal-exec/main.go:206-215 | spelled out, the outcomes and the clock readings after which an attempt is repeated |
| `Shim.RepeatsOnlyDialsExactly` | cmd/kernelseal-exec/main.go:159-163 | only failed dials are repeated if and only if the first attempt that gets through to the socket is not cut off by a network error with time left |
| `Shim.RepeatsAfterFailedRead` | cmd/kernelseal-exec/main.go:206-215 | a run in which the response is lost and the request is made again and served |

## Left out

- BPF object loading, attachment, ring-buffer readers and memlock: foreign library and kernel calls; only the maps and queues are modelled, with the LSM hooks attached.
- Socket creation, group lookup, file modes, the accept loop and deadlines: operating-system plumbing.
- HTTP, TLS, tokens and JSON: a server history that yields lists and event streams stands in for them.
- Reading configuration files and secret sources: each secret source either yields a value or does not.
- The numeric cgroup ID: no selector uses it.
- Limits on the length and the bytes of cgroup names, and on what the API server accepts as a namespace, label or container name.
- Metrics, logging, health endpoints, peer descriptions, the callback's sorted names and the texts of errors and warnings: reporting only; reasons are enumerated instead.
- `TargetBinaries` and the kernel-side exec filter: they only narrow which exec events are reported.
- Agent restart and shutdown, and forked children: documented as outside the guarantee.
- Go memory, locks and goroutines: represented as interleaved steps.
- The exit tracepoint in the step machine always reads the exiting task's live count; the branch for an unreadable signal struct is in `KernelMaps.ExecMonitor.HandleSchedProcessExit` only.
- Lower-casing of letters outside ASCII: the model leaves them alone, except the two whose lower case is an ASCII letter; this decides every comparison with ASCII text as the code does.
- `/proc/<pid>/stat` is modelled as characters rather than UTF-8 bytes.
- The shim's flags, its fail-closed choice and the exec itself: one branch each.
