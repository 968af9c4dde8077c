/** The LSM hooks on the policy bytes the agent writes (`bpf/lsm_file_protect.bpf.c`,
    `bpf/kernelseal_common.h`, `internal/types/events.go`, `GetBPFPolicy` in `internal/policy.go`). */
module LsmHooks {
  import opened Options
  import opened Widths
  import opened KernelMaps
  import opened Decimal
  import Text

  type Byte = b: int | 0 <= b < 256 witness 0

  // ----- The configured policy, and the bytes written for it

  datatype PolicySpec = PolicySpec(mode: string, blockEnviron: bool, blockMem: bool, blockMaps: bool,
                                   blockPtrace: bool, allowSelfRead: bool, auditAll: bool)

  const MODE_DISABLED: Byte := 0
  const MODE_AUDIT: Byte := 1
  const MODE_ENFORCE: Byte := 2

  function BoolByte(b: bool): Byte { if b then 1 else 0 }

  datatype Effect = Off | LogOnly | Enforcing

  /** An unknown mode string acts as enforce. */
  function EffectOf(mode: string): Effect {
    var word := Text.ToLower(mode);
    if word == "disabled" then Off else if word == "audit" then LogOnly else Enforcing
  }

  function ModeByte(mode: string): Byte {
    match EffectOf(mode)
    case Off => MODE_DISABLED
    case LogOnly => MODE_AUDIT
    case Enforcing => MODE_ENFORCE
  }

  /** The Go struct's fields in declaration order; the last byte is reserved. */
  function Encode(p: PolicySpec): seq<Byte> {
    [ModeByte(p.mode), BoolByte(p.blockEnviron), BoolByte(p.blockMem), BoolByte(p.blockMaps),
     BoolByte(p.blockPtrace), BoolByte(p.allowSelfRead), BoolByte(p.auditAll), 0]
  }

  /** `struct ks_policy_config`, read at the offsets the C compiler gives its eight bytes. */
  datatype KsPolicy = KsPolicy(enforceMode: Byte, blockEnviron: Byte, blockMem: Byte, blockMaps: Byte,
                               blockPtrace: Byte, allowSelfRead: Byte, auditAll: Byte, reserved: Byte)

  function Decode(bytes: seq<Byte>): KsPolicy
    requires |bytes| == 8
  {
    KsPolicy(bytes[0], bytes[1], bytes[2], bytes[3], bytes[4], bytes[5], bytes[6], bytes[7])
  }

  // ----- Accesses

  datatype AccessType = Environ | Mem | Maps | Ptrace

  datatype EventKind = Blocked | Audit

  datatype Event = Event(pid: Pid, target: Pid, kind: EventKind, access: AccessType)

  /** What a hook decides: whether to refuse, and which event it tries to send. */
  datatype Verdict = Verdict(deny: bool, event: Option<Event>)

  const ALLOW := Verdict(false, None)

  function ClassifyProcFile(name: string): Option<AccessType> {
    var f := Kept(name);
    if f == "environ" then Some(Environ) else if f == "mem" then Some(Mem) else if f == "maps" then Some(Maps) else None
  }

  // ----- The hooks

  class Hooks {
    var policy: Option<seq<Byte>>      // the policy_config map's single entry
    var allowedPids: set<Pid>
    var protectedPids: set<Pid>
    var events: seq<Event>

    ghost predicate Valid()
      reads this
    {
      policy.Some? ==> |policy.value| == 8
    }

    constructor (policy: Option<seq<Byte>>, allowed: set<Pid>, prot: set<Pid>)
      requires policy.Some? ==> |policy.value| == 8
      ensures Valid() && this.policy == policy && allowedPids == allowed && protectedPids == prot && events == []
    {
      this.policy, allowedPids, protectedPids, events := policy, allowed, prot, [];
    }

    /** Queue an event if the ring buffer has room for it. */
    method Send(ev: Event, reserved: bool)
      modifies this`events
      ensures events == if reserved then old(events) + [ev] else old(events)
    {
      if reserved { events := events + [ev]; }
    }

    /** `ks_file_open` for `/.../parent/name`. Returns whether the open is refused. */
    method FileOpen(pid: Pid, name: string, parent: string, reserved: bool) returns (deny: bool)
      requires Valid()
      modifies this`events
      ensures var v := FileVerdict(policy, allowedPids, protectedPids, pid, name, parent);
              deny == v.deny && events == old(events) + (if v.event.Some? && reserved then [v.event.value] else [])
    {
      if policy.None? { return false; }
      var p := Decode(policy.value);
      if p.enforceMode == MODE_DISABLED { return false; }
      if pid in allowedPids { return false; }
      var access := ClassifyProcFile(name);
      if access.None? { return false; }
      var guarded: Byte := 0;
      if access.value == Environ { guarded := p.blockEnviron; }
      else if access.value == Mem { guarded := p.blockMem; }
      else if access.value == Maps { guarded := p.blockMaps; }
      var target := GetProcDirPid(parent);
      if target == 0 { return false; }
      if target !in protectedPids { return false; }
      var selfRead := p.allowSelfRead != 0 && pid == target;
      if guarded != 0 && !selfRead {
        if p.enforceMode == MODE_ENFORCE {
          Send(Event(pid, target, Blocked, access.value), reserved);
          return true;
        }
        Send(Event(pid, target, Audit, access.value), reserved);
        return false;
      }
      if p.auditAll != 0 { Send(Event(pid, target, Audit, access.value), reserved); }
      return false;
    }

    /** `ks_ptrace_access_check` on a thread of the group `child`. */
    method PtraceAccessCheck(pid: Pid, child: Pid, reserved: bool) returns (deny: bool)
      requires Valid()
      modifies this`events
      ensures var v := PtraceVerdict(policy, allowedPids, protectedPids, pid, child);
              deny == v.deny && events == old(events) + (if v.event.Some? && reserved then [v.event.value] else [])
    {
      if policy.None? { return false; }
      var p := Decode(policy.value);
      if p.enforceMode == MODE_DISABLED || p.blockPtrace == 0 { return false; }
      if pid in allowedPids { return false; }
      if child !in protectedPids { return false; }
      if p.allowSelfRead != 0 && pid == child { return false; }
      if p.enforceMode == MODE_ENFORCE {
        Send(Event(pid, child, Blocked, Ptrace), reserved);
        return true;
      }
      Send(Event(pid, child, Audit, Ptrace), reserved);
      return false;
    }
  }

  /** Whether the bytes guard an access to `target`, self reads aside. */
  predicate GuardedBytes(p: KsPolicy, a: AccessType) {
    match a
    case Environ => p.blockEnviron != 0
    case Mem => p.blockMem != 0
    case Maps => p.blockMaps != 0
    case Ptrace => p.blockPtrace != 0
  }

  function FileVerdict(policy: Option<seq<Byte>>, allowed: set<Pid>, prot: set<Pid>,
                       pid: Pid, name: string, parent: string): Verdict
    requires policy.Some? ==> |policy.value| == 8
  {
    var access := ClassifyProcFile(name);
    var target := DirPid(parent);
    if policy.None? || pid in allowed || access.None? || target == 0 || target !in prot then ALLOW
    else
      var p := Decode(policy.value);
      if p.enforceMode == MODE_DISABLED then ALLOW
      else if GuardedBytes(p, access.value) && !(p.allowSelfRead != 0 && pid == target) then
        if p.enforceMode == MODE_ENFORCE then Verdict(true, Some(Event(pid, target, Blocked, access.value)))
        else Verdict(false, Some(Event(pid, target, Audit, access.value)))
      else if p.auditAll != 0 then Verdict(false, Some(Event(pid, target, Audit, access.value)))
      else ALLOW
  }

  function PtraceVerdict(policy: Option<seq<Byte>>, allowed: set<Pid>, prot: set<Pid>, pid: Pid, child: Pid): Verdict
    requires policy.Some? ==> |policy.value| == 8
  {
    if policy.None? || pid in allowed || child !in prot then ALLOW
    else
      var p := Decode(policy.value);
      if p.enforceMode == MODE_DISABLED || !GuardedBytes(p, Ptrace) || (p.allowSelfRead != 0 && pid == child) then ALLOW
      else if p.enforceMode == MODE_ENFORCE then Verdict(true, Some(Event(pid, child, Blocked, Ptrace)))
      else Verdict(false, Some(Event(pid, child, Audit, Ptrace)))
  }

  // ----- The hooks and the bytes, offset by offset

  /** The eight bytes written for a policy. Only the words disabled and audit, in any letter case, are not
      enforce. */
  lemma PolicyBytes(spec: PolicySpec)
    ensures var b, word := Encode(spec), Text.ToLower(spec.mode);
            && |b| == 8
            && b[0] == (if word == "disabled" then 0 else if word == "audit" then 1 else 2)
            && b[1] == (if spec.blockEnviron then 1 else 0) && b[2] == (if spec.blockMem then 1 else 0)
            && b[3] == (if spec.blockMaps then 1 else 0) && b[4] == (if spec.blockPtrace then 1 else 0)
            && b[5] == (if spec.allowSelfRead then 1 else 0) && b[6] == (if spec.auditAll then 1 else 0) && b[7] == 0
  {
  }

  /** Which byte guards a file of `/proc/<pid>`. */
  function GuardOffset(name: string): nat
    requires name in {"environ", "mem", "maps"}
  {
    if name == "environ" then 1 else if name == "mem" then 2 else 3
  }

  /** For any eight bytes: an open is refused exactly in mode 2, when the file's byte is set, the process
      is protected and the opener neither allowed nor permitted to read itself. An event is tried for
      those accesses in any mode but 0, and if byte 6 is set for all accesses to a protected process
      by an opener that is not allowed. */
  lemma FileVerdictOnBytes(b: seq<Byte>, allowed: set<Pid>, prot: set<Pid>, pid: Pid, name: string, target: Pid)
    requires |b| == 8 && name in {"environ", "mem", "maps"} && target > 0
    ensures var v := FileVerdict(Some(b), allowed, prot, pid, name, Print(target));
            var seen := target in prot && pid !in allowed && b[0] != 0;
            var guarded := b[GuardOffset(name)] != 0 && !(b[5] != 0 && pid == target);
            && (v.deny <==> b[0] == 2 && seen && guarded)
            && (v.event.Some? <==> seen && (guarded || b[6] != 0))
            && (v.event.Some? ==> v.event.value.pid == pid && v.event.value.target == target
                                  && (v.event.value.kind == Blocked <==> v.deny)
                                  && v.event.value.access != Ptrace && FileName(v.event.value.access) == name)
    ensures FileVerdict(None, allowed, prot, pid, name, Print(target)) == ALLOW
  {
    PidNameRoundTrip(target);
    assert ClassifyProcFile("environ") == Some(Environ) && ClassifyProcFile("mem") == Some(Mem);
    assert ClassifyProcFile("maps") == Some(Maps);
    assert |"environ"| == 7 && |"mem"| == 3 && |"maps"| == 4;
  }

  /** The same for ptrace, which byte 4 guards and byte 6 does not touch. */
  lemma PtraceVerdictOnBytes(b: seq<Byte>, allowed: set<Pid>, prot: set<Pid>, pid: Pid, child: Pid)
    requires |b| == 8
    ensures var v := PtraceVerdict(Some(b), allowed, prot, pid, child);
            var seen := child in prot && pid !in allowed && b[0] != 0 && b[4] != 0 && !(b[5] != 0 && pid == child);
            && (v.deny <==> b[0] == 2 && seen)
            && v.event == if seen then Some(Event(pid, child, if v.deny then Blocked else Audit, Ptrace)) else None
    ensures PtraceVerdict(None, allowed, prot, pid, child) == ALLOW
  {
  }

  // ----- The decision computed directly from the switches

  predicate Blocks(spec: PolicySpec, a: AccessType) {
    match a
    case Environ => spec.blockEnviron
    case Mem => spec.blockMem
    case Maps => spec.blockMaps
    case Ptrace => spec.blockPtrace
  }

  /** The access is one the switches forbid: to a protected process, by one that is not exempt. */
  predicate Forbidden(spec: PolicySpec, allowed: set<Pid>, prot: set<Pid>, pid: Pid, a: AccessType, target: Pid) {
    Blocks(spec, a) && target in prot && pid !in allowed && !(spec.allowSelfRead && pid == target)
  }

  /** What the configuration says should happen to an access. Only file accesses are logged when
      they are allowed and everything is to be audited. */
  function Intended(spec: PolicySpec, allowed: set<Pid>, prot: set<Pid>, pid: Pid, a: AccessType, target: Pid): Verdict
  {
    var effect := EffectOf(spec.mode);
    if effect == Off then ALLOW
    else if Forbidden(spec, allowed, prot, pid, a, target) then
      if effect == Enforcing then Verdict(true, Some(Event(pid, target, Blocked, a)))
      else Verdict(false, Some(Event(pid, target, Audit, a)))
    else if spec.auditAll && a != Ptrace && target in prot && pid !in allowed then
      Verdict(false, Some(Event(pid, target, Audit, a)))
    else ALLOW
  }

  function FileName(a: AccessType): string
    requires a != Ptrace
  {
    match a
    case Environ => "environ"
    case Mem => "mem"
    case Maps => "maps"
  }

  lemma ClassifiesItsNames(a: AccessType)
    requires a != Ptrace
    ensures ClassifyProcFile(FileName(a)) == Some(a)
  {
  }

  lemma FileHookOnTarget(spec: PolicySpec, allowed: set<Pid>, prot: set<Pid>, pid: Pid, name: string, parent: string)
    requires ClassifyProcFile(name).Some? && 0 < DirPid(parent) < TWO_32
    ensures FileVerdict(Some(Encode(spec)), allowed, prot, pid, name, parent)
            == Intended(spec, allowed, prot, pid, ClassifyProcFile(name).value, DirPid(parent))
  {
  }

  /** Opening `/proc/<target>/<file>` under the bytes written for a policy does what its switches say. */
  lemma FileHookFollowsSwitches(spec: PolicySpec, allowed: set<Pid>, prot: set<Pid>, pid: Pid, a: AccessType,
                                target: Pid)
    requires a != Ptrace && target > 0
    ensures FileVerdict(Some(Encode(spec)), allowed, prot, pid, FileName(a), Print(target))
            == Intended(spec, allowed, prot, pid, a, target)
  {
    PidNameRoundTrip(target);
    ClassifiesItsNames(a);
    FileHookOnTarget(spec, allowed, prot, pid, FileName(a), Print(target));
  }

  /** Opening `/proc/<group>/task/<tid>/<file>`: the hook reads the thread's directory name, so it decides
      as if `tid` were the process. An access that is forbidden for the group is refused exactly when
      the map also holds `tid` and the opener is not `tid` reading itself. */
  lemma ThreadDirectoryGoesByTid(spec: PolicySpec, allowed: set<Pid>, prot: set<Pid>, pid: Pid, a: AccessType,
                                 group: Pid, tid: Pid)
    requires a != Ptrace && tid > 0
    requires EffectOf(spec.mode) == Enforcing && Forbidden(spec, allowed, prot, pid, a, group)
    ensures FileVerdict(Some(Encode(spec)), allowed, prot, pid, FileName(a), Print(tid))
            == Intended(spec, allowed, prot, pid, a, tid)
    ensures FileVerdict(Some(Encode(spec)), allowed, prot, pid, FileName(a), Print(tid)).deny <==>
              tid in prot && !(spec.allowSelfRead && pid == tid)
  {
    FileHookFollowsSwitches(spec, allowed, prot, pid, a, tid);
  }

  /** Process 1 is protected and has a second thread, 2: the same file is refused in the process's
      directory and allowed in the second thread's. */
  lemma ThreadDirectoryNotGuarded(spec: PolicySpec, pid: Pid)
    requires EffectOf(spec.mode) == Enforcing && spec.blockEnviron && pid > 2
    ensures FileVerdict(Some(Encode(spec)), {}, {1}, pid, "environ", Print(1)).deny
    ensures !FileVerdict(Some(Encode(spec)), {}, {1}, pid, "environ", Print(2)).deny
  {
    FileHookFollowsSwitches(spec, {}, {1}, pid, Environ, 1);
    ThreadDirectoryGoesByTid(spec, {}, {1}, pid, Environ, 1, 2);
  }

  lemma PtraceHookFollowsSwitches(spec: PolicySpec, allowed: set<Pid>, prot: set<Pid>, pid: Pid, child: Pid)
    ensures PtraceVerdict(Some(Encode(spec)), allowed, prot, pid, child)
            == Intended(spec, allowed, prot, pid, Ptrace, child)
  {
  }

  /** Any other file, and any file in a directory that is not a PID, is left alone. */
  lemma OtherFilesAllowed(policy: Option<seq<Byte>>, allowed: set<Pid>, prot: set<Pid>, pid: Pid, name: string,
                          parent: string)
    requires policy.Some? ==> |policy.value| == 8
    requires name !in {"environ", "mem", "maps"} || !AllDigits(Kept(parent))
    ensures FileVerdict(policy, allowed, prot, pid, name, parent) == ALLOW
  {
  }

  /** With audit_all off, audit mode tries to send an event for exactly the accesses enforce mode
      denies, through both hooks, and denies none itself. */
  lemma AuditShadowsEnforce(spec: PolicySpec, auditing: string, enforcing: string,
                            allowed: set<Pid>, prot: set<Pid>, pid: Pid, name: string, parent: string, child: Pid)
    requires !spec.auditAll
    requires EffectOf(auditing) == LogOnly && EffectOf(enforcing) == Enforcing
    ensures var audit, enforce := Some(Encode(spec.(mode := auditing))), Some(Encode(spec.(mode := enforcing)));
            var fa, fe := FileVerdict(audit, allowed, prot, pid, name, parent),
                          FileVerdict(enforce, allowed, prot, pid, name, parent);
            var pa := PtraceVerdict(audit, allowed, prot, pid, child);
            var pe := PtraceVerdict(enforce, allowed, prot, pid, child);
            && (fa.event.Some? <==> fe.deny) && !fa.deny
            && (pa.event.Some? <==> pe.deny) && !pa.deny
  {
  }
}
