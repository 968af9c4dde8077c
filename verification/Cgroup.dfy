/** Reading a pod out of a cgroup path (`internal/cgroup/cgroup.go`). */
module Cgroup {
  import opened Options
  import opened Text

  predicate IsHex(c: char) {
    '0' <= c <= '9' || 'a' <= c <= 'f' || 'A' <= c <= 'F'
  }

  predicate AllHex(s: string) {
    forall i :: 0 <= i < |s| ==> IsHex(s[i])
  }

  /** Where the separators of the 8-4-4-4-12 form sit. */
  predicate IsGap(i: int) {
    i == 8 || i == 13 || i == 18 || i == 23
  }

  /** A UUID whose groups are separated by dashes or underscores. */
  predicate IsUuid(u: string) {
    |u| == 36 && forall i :: 0 <= i < 36 ==> if IsGap(i) then u[i] == '-' || u[i] == '_' else IsHex(u[i])
  }

  /** The same with dashes only. */
  predicate IsDashed(u: string) {
    IsUuid(u) && '_' !in u
  }

  function Replace(s: string, a: char, b: char): (r: string)
    ensures |r| == |s|
    ensures forall i :: 0 <= i < |s| ==> r[i] == if s[i] == a then b else s[i]
  {
    seq(|s|, i requires 0 <= i < |s| => if s[i] == a then b else s[i])
  }

  /** The form the API server reports. */
  function Canonical(u: string): string {
    ToLower(Replace(u, '_', '-'))
  }

  predicate IsLowerHex(c: char) {
    '0' <= c <= '9' || 'a' <= c <= 'f'
  }

  predicate IsCanonicalUid(u: string) {
    |u| == 36 && forall i :: 0 <= i < 36 ==> if IsGap(i) then u[i] == '-' else IsLowerHex(u[i])
  }

  predicate IsCanonicalId(s: string) {
    12 <= |s| <= 64 && forall i :: 0 <= i < |s| ==> IsLowerHex(s[i])
  }

  // ----- The two segment patterns, as the sets of strings they describe

  const SLICE := ".slice"
  const SCOPE := ".scope"
  const RUNTIMES := ["cri-containerd-", "crio-", "docker-", "libpod-"]

  /** `(?:^|-)pod(UUID)(?:\.slice)?$`, matched anywhere in the segment. */
  predicate PodSegment(seg: string, head: string, uid: string, tail: string) {
    && seg == head + "pod" + uid + tail
    && (head == "" || head[|head| - 1] == '-')
    && IsUuid(uid)
    && (tail == "" || tail == ".slice")
  }

  /** `^(?:cri-containerd-|crio-|docker-|libpod-)?([hex]{12,64})(?:\.scope)?$` */
  predicate ContainerSegment(seg: string, runtime: string, id: string, tail: string) {
    && seg == runtime + id + tail
    && runtime in {"", "cri-containerd-", "crio-", "docker-", "libpod-"}
    && 12 <= |id| <= 64 && AllHex(id)
    && (tail == "" || tail == ".scope")
  }

  // ----- Matchers for them

  function MatchPod(seg: string): Option<string> {
    var body := TrimSuffix(seg, SLICE);
    var n := |body|;
    if n >= 39 && IsUuid(body[n - 36..]) && body[n - 39..n - 36] == "pod" && (n == 39 || body[n - 40] == '-')
    then Some(body[n - 36..])
    else None
  }

  function RuntimeOf(body: string): string {
    if HasPrefix(body, "cri-containerd-") then "cri-containerd-"
    else if HasPrefix(body, "crio-") then "crio-"
    else if HasPrefix(body, "docker-") then "docker-"
    else if HasPrefix(body, "libpod-") then "libpod-"
    else ""
  }

  function MatchContainer(seg: string): Option<string> {
    var body := TrimSuffix(seg, SCOPE);
    var id := body[|RuntimeOf(body)|..];
    if 12 <= |id| <= 64 && AllHex(id) then Some(id) else None
  }

  /** The matcher finds exactly the one UID the pattern admits. */
  lemma MatchPodComplete(seg: string, head: string, uid: string, tail: string)
    requires PodSegment(seg, head, uid, tail)
    ensures MatchPod(seg) == Some(uid)
  {
    var body := head + "pod" + uid;
    if tail == "" {
      assert seg == body && seg[|seg| - 3] == uid[33];
      NoSuffix(seg, SLICE, 3);
    } else {
      assert seg == body + SLICE;
      assert seg[|seg| - 6..] == SLICE;
      assert seg[..|seg| - 6] == body;
    }
    assert TrimSuffix(seg, SLICE) == body;
    var n := |body|;
    assert body[n - 36..] == uid && body[n - 39..n - 36] == "pod";
    assert head != "" ==> body[n - 40] == head[|head| - 1];
  }

  lemma MatchPodSound(seg: string) returns (head: string, tail: string)
    requires MatchPod(seg).Some?
    ensures PodSegment(seg, head, MatchPod(seg).value, tail)
  {
    var body := TrimSuffix(seg, SLICE);
    head := body[..|body| - 39];
    tail := if HasSuffix(seg, SLICE) then SLICE else "";
    var n := |body|;
    assert body[..n - 36] == head + body[n - 39..n - 36];
    assert body == body[..n - 36] + body[n - 36..];
    assert seg == body + tail;
    assert head != "" ==> head[|head| - 1] == body[|body| - 40];
  }

  lemma RuntimeFound(runtime: string, id: string)
    requires runtime == "" || runtime in RUNTIMES
    requires 12 <= |id| && AllHex(id)
    ensures RuntimeOf(runtime + id) == runtime
  {
    var body := runtime + id;
    if runtime == "" {
      assert body == id;
      NoPrefix(body, "cri-containerd-", 1);
      NoPrefix(body, "crio-", 1);
      NoPrefix(body, "docker-", 1);
      NoPrefix(body, "libpod-", 0);
    } else {
      assert body[..|runtime|] == runtime;
      assert body[0] == runtime[0] && body[3] == runtime[3];
      if runtime != "cri-containerd-" { NoPrefix(body, "cri-containerd-", if runtime[0] == 'c' then 3 else 0); }
      if runtime != "crio-" { NoPrefix(body, "crio-", if runtime[0] == 'c' then 3 else 0); }
      if runtime != "docker-" { NoPrefix(body, "docker-", 0); }
    }
  }

  lemma MatchContainerComplete(seg: string, runtime: string, id: string, tail: string)
    requires ContainerSegment(seg, runtime, id, tail)
    ensures MatchContainer(seg) == Some(id)
  {
    var body := runtime + id;
    if tail == "" {
      assert seg == body && seg[|seg| - 2] == id[|id| - 2];
      NoSuffix(seg, SCOPE, 2);
    } else {
      assert seg[|seg| - 6..] == SCOPE && seg[..|seg| - 6] == body;
    }
    assert TrimSuffix(seg, SCOPE) == body;
    RuntimeFound(runtime, id);
    assert body[|runtime|..] == id;
  }

  lemma MatchContainerSound(seg: string) returns (runtime: string, tail: string)
    requires MatchContainer(seg).Some?
    ensures ContainerSegment(seg, runtime, MatchContainer(seg).value, tail)
  {
    var body := TrimSuffix(seg, SCOPE);
    runtime := RuntimeOf(body);
    tail := if HasSuffix(seg, SCOPE) then SCOPE else "";
    assert body == runtime + body[|runtime|..];
    assert seg == body + tail;
    assert runtime == "" || runtime in RUNTIMES by {
      assert RUNTIMES[0] == "cri-containerd-" && RUNTIMES[1] == "crio-" && RUNTIMES[2] == "docker-" &&
             RUNTIMES[3] == "libpod-";
    }
  }

  // ----- Scanning a path

  /** What a path says about its process; both parts are empty for a path outside any pod. */
  datatype PodRef = PodRef(uid: string, container: string)

  const NO_POD := PodRef("", "")

  function ContainerBelow(segs: seq<string>, i: nat): string {
    if i < |segs| && MatchContainer(segs[i]).Some? then ToLower(MatchContainer(segs[i]).value) else ""
  }

  /** The first segment that names a pod decides, together with the one directly below it. */
  function ParseFrom(segs: seq<string>, i: nat): PodRef
    decreases |segs| - i
  {
    if i >= |segs| then NO_POD
    else if MatchPod(segs[i]).Some? then PodRef(Canonical(MatchPod(segs[i]).value), ContainerBelow(segs, i + 1))
    else ParseFrom(segs, i + 1)
  }

  function PodOf(path: string): PodRef {
    ParseFrom(Split(path, '/'), 0)
  }

  method ParsePod(path: string) returns (podUID: string, containerID: string)
    ensures PodRef(podUID, containerID) == PodOf(path)
    ensures podUID == "" ==> containerID == ""
    ensures podUID != "" ==> IsCanonicalUid(podUID)
    ensures containerID != "" ==> IsCanonicalId(containerID)
  {
    podUID, containerID := "", "";
    var segments := Split(path, '/');
    for i := 0 to |segments|
      invariant podUID == "" && containerID == ""
      invariant ParseFrom(segments, 0) == ParseFrom(segments, i)
    {
      var m := MatchPod(segments[i]);
      if m.None? { continue; }
      podUID := ToLower(Replace(m.value, '_', '-'));
      CanonicalUid(m.value);
      if i + 1 < |segments| {
        var cm := MatchContainer(segments[i + 1]);
        if cm.Some? {
          containerID := ToLower(cm.value);
          CanonicalId(cm.value);
        }
      }
      return;
    }
  }

  lemma CanonicalUid(u: string)
    requires IsUuid(u)
    ensures IsCanonicalUid(Canonical(u))
  {
  }

  lemma CanonicalId(id: string)
    requires 12 <= |id| <= 64 && AllHex(id)
    ensures IsCanonicalId(ToLower(id))
  {
  }

  /** Every non-empty result, of every path, is in the form the API server reports. */
  lemma {:induction false} PodOfIsCanonical(segs: seq<string>, i: nat)
    ensures var r := ParseFrom(segs, i);
            && (r.uid == "" ==> r == NO_POD)
            && (r.uid != "" ==> IsCanonicalUid(r.uid))
            && (r.container != "" ==> IsCanonicalId(r.container))
    decreases |segs| - i
  {
    if i < |segs| {
      if MatchPod(segs[i]).Some? {
        CanonicalUid(MatchPod(segs[i]).value);
        if i + 1 < |segs| && MatchContainer(segs[i + 1]).Some? { CanonicalId(MatchContainer(segs[i + 1]).value); }
      } else {
        PodOfIsCanonical(segs, i + 1);
      }
    }
  }

  lemma {:induction false} SkipsNonPods(above: seq<string>, rest: seq<string>, i: nat)
    requires i <= |above| && forall j :: 0 <= j < |above| ==> MatchPod(above[j]).None?
    ensures ParseFrom(above + rest, i) == ParseFrom(above + rest, |above|)
    decreases |above| - i
  {
    if i < |above| { SkipsNonPods(above, rest, i + 1); }
  }

  predicate NoSlash(segs: seq<string>) {
    forall i :: 0 <= i < |segs| ==> '/' !in segs[i]
  }

  /** One way to write a container's path: any segments above, a pod segment, the container
      segment directly below it, and any sub-hierarchy. */
  datatype Spelling = Spelling(above: seq<string>, head: string, uid: string, slice: string,
                               runtime: string, id: string, scope: string, below: seq<string>)

  predicate IsSpelling(sp: Spelling) {
    && NoSlash(sp.above) && '/' !in sp.head && NoSlash(sp.below)
    && (forall j :: 0 <= j < |sp.above| ==> MatchPod(sp.above[j]).None?)
    && PodSegment(PodPart(sp), sp.head, sp.uid, sp.slice)
    && ContainerSegment(LeafPart(sp), sp.runtime, sp.id, sp.scope)
  }

  function PodPart(sp: Spelling): string { sp.head + "pod" + sp.uid + sp.slice }

  function LeafPart(sp: Spelling): string { sp.runtime + sp.id + sp.scope }

  function PathOf(sp: Spelling): string {
    Join(sp.above + [PodPart(sp), LeafPart(sp)] + sp.below, '/')
  }

  lemma PartsHaveNoSlash(sp: Spelling)
    requires IsSpelling(sp)
    ensures '/' !in PodPart(sp) && '/' !in LeafPart(sp)
  {
    assert '/' !in sp.uid && '/' !in sp.id && '/' !in sp.runtime && '/' !in SLICE && '/' !in SCOPE;
  }

  lemma {:induction false} ParsesAtPod(above: seq<string>, pod: string, leaf: string, below: seq<string>)
    requires forall j :: 0 <= j < |above| ==> MatchPod(above[j]).None?
    requires MatchPod(pod).Some? && MatchContainer(leaf).Some?
    ensures ParseFrom(above + [pod, leaf] + below, 0) ==
            PodRef(Canonical(MatchPod(pod).value), ToLower(MatchContainer(leaf).value))
  {
    var segs := above + [pod, leaf] + below;
    assert segs == above + ([pod, leaf] + below);
    SkipsNonPods(above, [pod, leaf] + below, 0);
    assert segs[|above|] == pod && segs[|above| + 1] == leaf;
  }

  /** Every spelling parses to the canonical forms of its UID and container ID. */
  lemma {:induction false} EverySpellingParses(sp: Spelling)
    requires IsSpelling(sp)
    ensures PodOf(PathOf(sp)) == PodRef(Canonical(sp.uid), ToLower(sp.id))
  {
    var pod, leaf := PodPart(sp), LeafPart(sp);
    PartsHaveNoSlash(sp);
    SplitJoin(sp.above + [pod, leaf] + sp.below, '/');
    MatchPodComplete(pod, sp.head, sp.uid, sp.slice);
    MatchContainerComplete(leaf, sp.runtime, sp.id, sp.scope);
    ParsesAtPod(sp.above, pod, leaf, sp.below);
  }

  /** The systemd driver's underscored slices and the cgroupfs driver's plain directories name the
      same pod and container, in the dashed lower-case form. */
  lemma DriversAgree(systemd: Spelling, fs: Spelling, uid: string, id: string)
    requires IsDashed(uid)
    requires IsSpelling(systemd) && systemd.uid == Replace(uid, '-', '_') && systemd.slice == ".slice"
    requires systemd.runtime != "" && systemd.id == id && systemd.scope == ".scope"
    requires IsSpelling(fs) && fs.head == "" && fs.uid == uid && fs.slice == "" && fs.id == id && fs.scope == ""
    ensures PodOf(PathOf(systemd)) == PodOf(PathOf(fs)) == PodRef(ToLower(uid), ToLower(id))
  {
    EverySpellingParses(systemd);
    EverySpellingParses(fs);
    forall i | 0 <= i < 36
      ensures Canonical(systemd.uid)[i] == ToLower(uid)[i] && Canonical(uid)[i] == ToLower(uid)[i]
    {
      assert uid[i] in uid;
    }
    assert Canonical(systemd.uid) == ToLower(uid) && Canonical(uid) == ToLower(uid);
  }

  // ----- Whether a path can be compared, and which line it comes from

  /** The kernel renders ".." segments for a cgroup outside the reader's namespace root. */
  predicate IsRelative(path: string) {
    ".." in Split(path, '/')
  }

  const UNIFIED := "0::"

  /** The third of at most three colon-separated fields, if there are three and it is not empty. */
  function V1Path(line: string): Option<string> {
    var segs := Split(line, ':');
    if |segs| < 3 || Join(segs[2..], ':') == "" then None else Some(Join(segs[2..], ':'))
  }

  function FirstUnified(lines: seq<string>): Option<string> {
    if lines == [] then None
    else if HasPrefix(lines[0], UNIFIED) then Some(lines[0][|UNIFIED|..])
    else FirstUnified(lines[1..])
  }

  function FirstV1(lines: seq<string>): Option<string> {
    if lines == [] then None
    else if V1Path(lines[0]).Some? then V1Path(lines[0])
    else FirstV1(lines[1..])
  }

  /** The path in a `/proc/<pid>/cgroup` file: the unified entry wherever it is, else the first v1 one. */
  function PathIn(data: string): Option<string> {
    var lines := Split(TrimSpace(data), '\n');
    if FirstUnified(lines).Some? then FirstUnified(lines) else FirstV1(lines)
  }

  method PathFor(data: string) returns (path: Option<string>)
    ensures path == PathIn(data)
  {
    var lines := Split(TrimSpace(data), '\n');
    for i := 0 to |lines|
      invariant FirstUnified(lines) == FirstUnified(lines[i..])
    {
      if HasPrefix(lines[i], UNIFIED) { return Some(lines[i][|UNIFIED|..]); }
      assert lines[i..][1..] == lines[i + 1..];
    }
    for i := 0 to |lines|
      invariant FirstUnified(lines).None? && FirstV1(lines) == FirstV1(lines[i..])
    {
      var p := V1Path(lines[i]);
      if p.Some? { return p; }
      assert lines[i..][1..] == lines[i + 1..];
    }
    return None;
  }

  /** A unified entry is preferred wherever it stands among the controllers' lines. */
  lemma {:induction false} UnifiedWins(before: seq<string>, path: string, after: seq<string>)
    requires forall i :: 0 <= i < |before| ==> !HasPrefix(before[i], UNIFIED)
    ensures FirstUnified(before + [UNIFIED + path] + after) == Some(path)
  {
    var lines := before + [UNIFIED + path] + after;
    if before == [] {
      assert lines[0] == UNIFIED + path;
    } else {
      UnifiedWins(before[1..], path, after);
      assert lines[1..] == before[1..] + [UNIFIED + path] + after;
    }
  }

  /** A v1 line yields everything after its second colon, colons included. */
  lemma V1PathIsThirdField(hierarchy: string, controllers: string, path: string)
    requires ':' !in hierarchy && ':' !in controllers
    ensures V1Path(hierarchy + ":" + controllers + ":" + path) == if path == "" then None else Some(path)
  {
    var line := hierarchy + ":" + controllers + ":" + path;
    SplitConcat(hierarchy + ":" + controllers, path, ':');
    SplitConcat(hierarchy, controllers, ':');
    SplitAfter(hierarchy, "", ':');
    SplitAfter(controllers, "", ':');
    assert hierarchy + "" == hierarchy && controllers + "" == controllers;
    assert Split(line, ':')[2..] == Split(path, ':');
    JoinSplit(path, ':');
  }

  // ----- Which line of the file is taken

  /** The file's text: its lines, with white space around them. */
  ghost predicate IsText(data: string, lines: seq<string>) {
    && |lines| > 0 && (forall i :: 0 <= i < |lines| ==> '\n' !in lines[i])
    && HasNoMargin(Join(lines, '\n'))
    && (exists a, b :: AllSpace(a) && AllSpace(b) && data == a + Join(lines, '\n') + b)
  }

  predicate HasNoMargin(t: string) {
    t == "" || (!IsSpace(t[0]) && !IsSpace(t[|t| - 1]))
  }

  lemma LinesOfText(data: string, lines: seq<string>)
    requires IsText(data, lines)
    ensures Split(TrimSpace(data), '\n') == lines
  {
    var a, b :| AllSpace(a) && AllSpace(b) && data == a + Join(lines, '\n') + b;
    TrimSpaceExact(a, Join(lines, '\n'), b);
    SplitJoin(lines, '\n');
  }

  lemma {:induction false} NoUnified(lines: seq<string>)
    requires forall i :: 0 <= i < |lines| ==> !HasPrefix(lines[i], "0::")
    ensures FirstUnified(lines) == None
  {
    if lines != [] { NoUnified(lines[1..]); }
  }

  lemma {:induction false} FirstV1At(lines: seq<string>, k: nat)
    requires k <= |lines| && forall i :: 0 <= i < k ==> V1Path(lines[i]) == None
    ensures FirstV1(lines) == if k < |lines| && V1Path(lines[k]).Some? then V1Path(lines[k]) else FirstV1(lines[k..])
    decreases |lines|
  {
    if k == 0 {
      assert lines[0..] == lines;
    } else {
      FirstV1At(lines[1..], k - 1);
      assert lines[1..][k - 1..] == lines[k..];
    }
  }

  predicate IsV1Line(line: string, h: string, c: string, p: string) {
    ':' !in h && ':' !in c && line == h + ":" + c + ":" + p
  }

  /** A v1 line has no path exactly when it has fewer than two colons or nothing after the second. */
  lemma NoV1Path(line: string)
    ensures V1Path(line) == None <==> forall h, c, p :: IsV1Line(line, h, c, p) ==> p == ""
  {
    forall h, c, p | IsV1Line(line, h, c, p) ensures V1Path(line) == if p == "" then None else Some(p) {
      V1PathIsThirdField(h, c, p);
    }
    var segs := Split(line, ':');
    if V1Path(line).Some? {
      JoinSplit(line, ':');
      SplitHasNoSep(line, ':', 0);
      SplitHasNoSep(line, ':', 1);
      assert segs[1..][1..] == segs[2..];
      assert IsV1Line(line, segs[0], segs[1], Join(segs[2..], ':'));
    }
  }

  /** The order of preference, on the file's text: the first line that begins with "0::", wherever it
      stands; without one, the first line that has a v1 path; without either, nothing. */
  lemma {:induction false} PathPreference(data: string, lines: seq<string>, k: nat, h: string, c: string, p: string)
    requires IsText(data, lines) && k < |lines|
    ensures lines[k] == "0::" + p && (forall i :: 0 <= i < k ==> !HasPrefix(lines[i], "0::")) ==>
              PathIn(data) == Some(p)
    ensures && (forall i :: 0 <= i < |lines| ==> !HasPrefix(lines[i], "0::"))
            && (forall i :: 0 <= i < k ==> V1Path(lines[i]) == None)
            && p != "" && IsV1Line(lines[k], h, c, p) ==>
              PathIn(data) == Some(p)
    ensures (forall i :: 0 <= i < |lines| ==> !HasPrefix(lines[i], "0::") && V1Path(lines[i]) == None) ==>
              PathIn(data) == None
  {
    LinesOfText(data, lines);
    assert lines == lines[..k] + [lines[k]] + lines[k + 1..];
    if lines[k] == "0::" + p && forall i :: 0 <= i < k ==> !HasPrefix(lines[i], "0::") {
      UnifiedWins(lines[..k], p, lines[k + 1..]);
    }
    if forall i :: 0 <= i < |lines| ==> !HasPrefix(lines[i], "0::") {
      NoUnified(lines);
      if p != "" && IsV1Line(lines[k], h, c, p) { V1PathIsThirdField(h, c, p); }
      if forall i :: 0 <= i < k ==> V1Path(lines[i]) == None { FirstV1At(lines, k); }
      if forall i :: 0 <= i < |lines| ==> V1Path(lines[i]) == None { FirstV1At(lines, |lines|); }
    }
  }

  // ----- What does not parse

  /** No pod segment, no pod; and a pod whose next segment is not a container's has no container. */
  lemma {:induction false} UnparsedParts(segs: seq<string>, i: nat)
    requires i <= |segs| && forall j :: 0 <= j < i ==> MatchPod(segs[j]) == None
    ensures i == |segs| ==> ParseFrom(segs, 0) == NO_POD
    ensures i < |segs| && MatchPod(segs[i]).Some? && (i + 1 < |segs| ==> MatchContainer(segs[i + 1]) == None) ==>
              ParseFrom(segs, 0) == PodRef(Canonical(MatchPod(segs[i]).value), "")
  {
    SkipsNonPods(segs[..i], segs[i..], 0);
    assert segs[..i] + segs[i..] == segs;
  }
}
