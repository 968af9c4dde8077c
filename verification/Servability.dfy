/** Which bindings that are not rejected can be served at all, to a caller the identifier can report. */
module Servability {
  import opened Options
  import opened Text
  import opened Registry
  import opened Identity
  import Pods
  import Cgroup
  import Policy
  import Server

  // ----- What a cgroup file can say

  lemma {:induction false} JoinAvoids(segs: seq<string>, sep: char, c: char)
    requires |segs| > 0 && c != sep && forall i :: 0 <= i < |segs| ==> c !in segs[i]
    ensures c !in Join(segs, sep)
  {
    if |segs| > 1 { JoinAvoids(segs[1..], sep, c); }
  }

  lemma {:induction false} SplitAvoids(s: string, sep: char, c: char, i: nat)
    requires c !in s && i < |Split(s, sep)|
    ensures c !in Split(s, sep)[i]
  {
    if s != "" {
      if s[0] != sep {
        SplitAvoids(s[1..], sep, c, i);
      } else if i > 0 {
        SplitAvoids(s[1..], sep, c, i - 1);
      }
    }
  }

  lemma LinePathAvoids(line: string, c: char)
    requires c != ':' && c !in line && Cgroup.V1Path(line).Some?
    ensures c !in Cgroup.V1Path(line).value
  {
    var segs := Split(line, ':');
    forall i | 0 <= i < |segs[2..]| ensures c !in segs[2..][i] { SplitAvoids(line, ':', c, i + 2); }
    JoinAvoids(segs[2..], ':', c);
  }

  lemma {:induction false} FirstPathAvoids(lines: seq<string>, c: char)
    requires c != ':' && forall i :: 0 <= i < |lines| ==> c !in lines[i]
    ensures Cgroup.FirstUnified(lines).Some? ==> c !in Cgroup.FirstUnified(lines).value
    ensures Cgroup.FirstV1(lines).Some? ==> c !in Cgroup.FirstV1(lines).value
  {
    if lines != [] {
      FirstPathAvoids(lines[1..], c);
      if Cgroup.V1Path(lines[0]).Some? { LinePathAvoids(lines[0], c); }
    }
  }

  /** The path is read from one line, whichever kind of line it is. */
  lemma PathHasNoNewline(data: string)
    requires Cgroup.PathIn(data).Some?
    ensures '\n' !in Cgroup.PathIn(data).value
  {
    var lines := Split(TrimSpace(data), '\n');
    forall i | 0 <= i < |lines| ensures '\n' !in lines[i] { SplitHasNoSep(TrimSpace(data), '\n', i); }
    FirstPathAvoids(lines, '\n');
  }

  /** And every path without a newline, and without white space at its end, can be what the file says. */
  lemma PathCanBeRead(path: string)
    requires path != "" && !IsSpace(path[|path| - 1]) && '\n' !in path
    ensures Cgroup.PathIn(Cgroup.UNIFIED + path) == Some(path)
  {
    var data := Cgroup.UNIFIED + path;
    assert data[|data| - 1] == path[|path| - 1] && data[0] == '0';
    assert TrimSpace(data) == data;
    SplitAfter(data, "", '\n');
    assert data + "" == data;
    assert Split(data, '\n') == [data];
    assert data[|Cgroup.UNIFIED|..] == path;
  }

  /** No segment after the first is empty or ".". */
  predicate Proper(segs: seq<string>) {
    forall i :: 1 <= i < |segs| ==> segs[i] != "" && segs[i] != "."
  }

  /** The form in which the kernel prints a cgroup: the root, or a path from it. ".." may occur, when the
      cgroup is outside the reader's namespace. */
  predicate IsKernelPath(path: string) {
    var segs := Split(path, '/');
    path == "/" || (|segs| > 1 && segs[0] == "" && Proper(segs))
  }

  /** A cgroup file with a path the kernel may have printed. */
  predicate FromKernel(file: Option<string>) {
    file.Some? && Cgroup.PathIn(file.value).Some? && IsKernelPath(Cgroup.PathIn(file.value).value)
  }

  // ----- Where the pod is in a path

  predicate IsFirstPod(segs: seq<string>, i: int) {
    0 <= i < |segs| && Cgroup.MatchPod(segs[i]).Some? && forall j :: 0 <= j < i ==> Cgroup.MatchPod(segs[j]).None?
  }

  lemma {:induction false} ParsedAt(segs: seq<string>, i: nat, from: nat)
    requires IsFirstPod(segs, i) && from <= i
    ensures Cgroup.ParseFrom(segs, from) ==
            Cgroup.PodRef(Cgroup.Canonical(Cgroup.MatchPod(segs[i]).value), Cgroup.ContainerBelow(segs, i + 1))
    decreases i - from
  {
    if from < i { ParsedAt(segs, i, from + 1); }
  }

  // ----- The condition

  /** The path a selector compares with. */
  function Wanted(s: Selector): string {
    TrimSuffix(s.cgroupPath, "/")
  }

  /** Some path the agent may read is equal to the selector's or below it, and comparable. */
  predicate PathReadable(s: Selector) {
    '\n' !in Wanted(s) && ".." !in Split(Wanted(s), '/')
  }

  /** If the selector's path goes below a pod, the next segment is a container. */
  predicate ContainerReadable(s: Selector) {
    var segs := Split(Wanted(s), '/');
    forall i :: 0 <= i < |segs| - 1 && IsFirstPod(segs, i) ==> Cgroup.MatchContainer(segs[i + 1]).Some?
  }

  predicate Reachable(s: Selector) {
    PathReadable(s) && (s.container != "" ==> ContainerReadable(s))
  }

  /** The selector's path has the form of the kernel's. */
  predicate Rooted(s: Selector) {
    s.cgroupPath != "" ==> HasPrefix(Wanted(s), "/") && Proper(Split(Wanted(s), '/'))
  }

  lemma NoPathIsReadable(s: Selector)
    requires s.cgroupPath == ""
    ensures Reachable(s)
  {
    assert Split("", '/') == [""];
    assert |".."| == 2;
  }

  // ----- Necessary

  lemma PrefixKeepsFirstPod(a: seq<string>, b: seq<string>, i: int)
    requires a <= b && IsFirstPod(a, i)
    ensures IsFirstPod(b, i)
  {
  }

  lemma UnreadableContainer(s: Selector, path: string)
    requires !ContainerReadable(s) && Split(Wanted(s), '/') <= Split(path, '/')
    ensures Cgroup.PodOf(path).container == ""
  {
    var want, got := Split(Wanted(s), '/'), Split(path, '/');
    var i :| IsFirstPod(want, i) && i + 1 < |want| && Cgroup.MatchContainer(want[i + 1]).None?;
    PrefixKeepsFirstPod(want, got, i);
    ParsedAt(got, i, 0);
  }

  lemma PrefixIsReadable(s: Selector, path: string)
    requires '\n' !in path && !Cgroup.IsRelative(path)
    requires Wanted(s) <= path && Split(Wanted(s), '/') <= Split(path, '/')
    ensures PathReadable(s)
  {
  }

  lemma MatchedPathIsReadable(s: Selector, path: string)
    requires CgroupPathMatches(s.cgroupPath, path) && '\n' !in path && !Cgroup.IsRelative(path)
    requires s.container != "" ==> Cgroup.PodOf(path).container != ""
    ensures Reachable(s)
  {
    PathMatchIsSegmentPrefix(s.cgroupPath, path);
    PrefixIsReadable(s, path);
    if s.container != "" && !ContainerReadable(s) { UnreadableContainer(s, path); }
  }

  /** What an admission says about the path. */
  lemma AdmittedPath(s: Selector, c: Caller)
    requires Refuses(s, c).None?
    ensures s.cgroupPath != "" ==> !c.relative && CgroupPathMatches(s.cgroupPath, c.cgroupPath)
    ensures s.container != "" ==> c.containerID != ""
  {
  }

  lemma AdmittedIsReachable(s: Selector, file: Option<string>, pods: Option<PodView>)
    requires Refuses(s, Identify(file, pods).caller).None?
    ensures Reachable(s)
  {
    if s.cgroupPath == "" {
      NoPathIsReadable(s);
    } else {
      var c := Identify(file, pods).caller;
      AdmittedPath(s, c);
      PodMeansAttributed(file, pods);
      assert file.Some? && Cgroup.PathIn(file.value) == Some(c.cgroupPath);
      PathHasNoNewline(file.value);
      MatchedPathIsReadable(s, c.cgroupPath);
    }
  }

  /** Whatever its cgroup file says and whatever the pod cache holds, no caller is admitted. */
  lemma UnreachableServesNobody(s: Selector, file: Option<string>, pods: Option<PodView>)
    requires !Reachable(s)
    ensures Refuses(s, Identify(file, pods).caller).Some?
  {
    if Refuses(s, Identify(file, pods).caller).None? { AdmittedIsReachable(s, file, pods); }
  }

  lemma RootSegments()
    ensures Split("/", '/') == ["", ""] && Cgroup.PodOf("/") == Cgroup.NO_POD && !Cgroup.IsRelative("/")
  {
    assert "/" == "" + "/" + "";
    SplitConcat("", "", '/');
    assert Cgroup.ParseFrom(["", ""], 1) == Cgroup.NO_POD;
    assert |".."| == 2;
  }

  lemma AdmittedPathIsRooted(s: Selector, path: string)
    requires IsKernelPath(path) && path != "/" && CgroupPathMatches(s.cgroupPath, path)
    ensures Rooted(s)
  {
    PathMatchIsSegmentPrefix(s.cgroupPath, path);
    var want, got := Split(Wanted(s), '/'), Split(path, '/');
    assert want[0] == got[0] == "";
    forall i | 1 <= i < |want| ensures want[i] != "" && want[i] != "." { assert want[i] == got[i]; }
  }

  /** For any file the kernel writes, a selector whose path is not in the kernel's form refuses the caller,
      except that "/", written "//", admits a process in the root cgroup, which is in no pod. */
  lemma UnrootedServesNoPod(s: Selector, file: Option<string>, pods: Option<PodView>)
    requires !Rooted(s) && FromKernel(file)
    ensures var c := Identify(file, pods).caller;
            Refuses(s, c).Some? || (Wanted(s) == "/" && c.cgroupPath == "/" && c.pod.None?)
  {
    var c := Identify(file, pods).caller;
    PodMeansAttributed(file, pods);
    RootSegments();
    if Refuses(s, c).None? && c.cgroupPath != "/" { AdmittedPathIsRooted(s, c.cgroupPath); }
  }

  // ----- Sufficient

  function SomeUid(): string { seq(36, i => if Cgroup.IsGap(i) then '-' else '0') }

  function SomeId(): string { seq(12, i => '0') }

  /** What to add below a selector's path to get a container of some pod. */
  function Below(segs: seq<string>): seq<string> {
    if exists i :: 0 <= i < |segs| && IsFirstPod(segs, i) then [SomeId()] else ["pod" + SomeUid(), SomeId()]
  }

  /** A container of some pod, equal to the selector's path or below it. */
  function FittingPath(s: Selector): string {
    Wanted(s) + "/" + Join(Below(Split(Wanted(s), '/')), '/')
  }

  lemma SomeNamesText()
    ensures |SomeUid()| == 36 && '/' !in SomeUid() && '\n' !in SomeUid()
    ensures |SomeId()| == 12 && '/' !in SomeId() && '\n' !in SomeId() && SomeId()[11] == '0'
  {
  }

  lemma BelowText(below: seq<string>, pod: string, id: string)
    requires below == [id] || below == [pod, id]
    requires |id| == 12 && id[11] == '0' && '/' !in id && '\n' !in id && '/' !in pod && '\n' !in pod
    ensures var tail := Join(below, '/');
            tail != "" && tail[|tail| - 1] == '0' && '\n' !in tail && Split(tail, '/') == below
  {
    SplitJoin(below, '/');
    if |below| == 2 { assert below[1..] == [id]; }
  }

  lemma FittingText(s: Selector)
    requires '\n' !in Wanted(s)
    ensures var path, segs := FittingPath(s), Split(Wanted(s), '/');
            path != "" && path[|path| - 1] == '0' && '\n' !in path && Split(path, '/') == segs + Below(segs)
  {
    var below := Below(Split(Wanted(s), '/'));
    SomeNamesText();
    BelowText(below, "pod" + SomeUid(), SomeId());
    SplitConcat(Wanted(s), Join(below, '/'), '/');
  }

  lemma SomeNamesMatch()
    ensures Cgroup.MatchPod("pod" + SomeUid()) == Some(SomeUid()) && Cgroup.MatchContainer(SomeId()) == Some(SomeId())
  {
    assert "" + "pod" + SomeUid() + "" == "pod" + SomeUid() && "" + SomeId() + "" == SomeId();
    Cgroup.MatchPodComplete("pod" + SomeUid(), "", SomeUid(), "");
    Cgroup.MatchContainerComplete(SomeId(), "", SomeId(), "");
  }

  lemma FittingBelowPod(segs: seq<string>, i: nat)
    requires IsFirstPod(segs, i)
    ensures var all := segs + [SomeId()];
            var ref := Cgroup.ParseFrom(all, 0);
            ref.uid != "" && (Cgroup.MatchContainer(all[i + 1]).Some? ==> ref.container != "")
  {
    PrefixKeepsFirstPod(segs, segs + [SomeId()], i);
    ParsedAt(segs + [SomeId()], i, 0);
  }

  lemma FittingNewPod(segs: seq<string>)
    requires forall i :: 0 <= i < |segs| ==> !IsFirstPod(segs, i)
    ensures var ref := Cgroup.ParseFrom(segs + ["pod" + SomeUid(), SomeId()], 0);
            ref.uid != "" && ref.container != ""
  {
    SomeNamesMatch();
    NoPodIn(segs, |segs|);
    Cgroup.ParsesAtPod(segs, "pod" + SomeUid(), SomeId(), []);
    assert segs + ["pod" + SomeUid(), SomeId()] + [] == segs + ["pod" + SomeUid(), SomeId()];
  }

  lemma FittingParses(s: Selector, segs: seq<string>)
    requires segs == Split(Wanted(s), '/') && (s.container != "" ==> ContainerReadable(s))
    ensures var ref := Cgroup.ParseFrom(segs + Below(segs), 0);
            ref.uid != "" && (s.container != "" ==> ref.container != "")
  {
    if i :| 0 <= i < |segs| && IsFirstPod(segs, i) {
      SomeNamesMatch();
      FittingBelowPod(segs, i);
    } else {
      FittingNewPod(segs);
    }
  }

  lemma {:induction false} NoPodIn(segs: seq<string>, n: nat)
    requires n <= |segs| && forall i :: 0 <= i < |segs| ==> !IsFirstPod(segs, i)
    ensures forall j :: 0 <= j < n ==> Cgroup.MatchPod(segs[j]).None?
  {
    if n > 0 {
      NoPodIn(segs, n - 1);
      assert !IsFirstPod(segs, n - 1);
    }
  }

  /** The caller at the fitting path, in a pod made to fit the selector's other constraints. */
  function Fitting(s: Selector): Caller {
    var path := FittingPath(s);
    var ref := Cgroup.PodOf(path);
    Caller(path, false, ref.uid, ref.container,
           Some(Pods.Pod(ref.uid, "pod", s.namespace, s.labels, map[ref.container := s.container])))
  }

  lemma FittingMatches(s: Selector)
    requires PathReadable(s) && (s.cgroupPath != "" ==> Wanted(s) != "")
    ensures s.cgroupPath != "" ==> CgroupPathMatches(s.cgroupPath, FittingPath(s))
    ensures !Cgroup.IsRelative(FittingPath(s))
  {
    var segs := Split(Wanted(s), '/');
    FittingText(s);
    assert Below(segs)[0] != ".." && Below(segs)[|Below(segs)| - 1] != "..";
    PathMatchIsSegmentPrefix(s.cgroupPath, FittingPath(s));
  }

  lemma FittingAdmitted(s: Selector)
    requires Reachable(s) && (s.cgroupPath != "" ==> Wanted(s) != "")
    ensures Refuses(s, Fitting(s)).None? && Fitting(s).podUID != "" && !Cgroup.IsRelative(FittingPath(s))
  {
    FittingMatches(s);
    FittingText(s);
    FittingParses(s, Split(Wanted(s), '/'));
    MatchedIsAdmitted(s, Fitting(s));
  }

  lemma MatchedIsAdmitted(s: Selector, c: Caller)
    requires s.cgroupPath != "" ==> !c.relative && CgroupPathMatches(s.cgroupPath, c.cgroupPath)
    requires c.pod.Some? && c.pod.value.namespace == s.namespace && c.pod.value.labels == s.labels
    requires s.container != "" ==> c.containerID != "" && Look(c.pod.value.containers, c.containerID) == s.container
    ensures Refuses(s, c).None?
  {
  }

  lemma FittingIsKernelPath(s: Selector)
    requires '\n' !in Wanted(s) && Rooted(s)
    ensures IsKernelPath(FittingPath(s))
  {
    var segs := Split(Wanted(s), '/');
    FittingText(s);
    var below := Below(segs);
    assert |below[0]| >= 12 && |below[|below| - 1]| >= 12;
    assert segs[0] == "";
    forall i | 1 <= i < |segs + below| ensures (segs + below)[i] != "" && (segs + below)[i] != "." {
      if i >= |segs| { assert (segs + below)[i] == below[i - |segs|]; }
    }
  }

  lemma IdentifiedInPod(file: string, path: string, pod: Pods.Pod)
    requires Cgroup.PathIn(file) == Some(path) && Cgroup.PodOf(path).uid != "" && !Cgroup.IsRelative(path)
    ensures var ref := Cgroup.PodOf(path);
            Identify(Some(file), Some(PodView(true, map[ref.uid := pod]))) ==
            Identified(Caller(path, false, ref.uid, ref.container, Some(pod)), false)
  {
  }

  /** A cgroup file and a pod cache under which the identifier reports a caller that is admitted. If the
      selector's path has the kernel's form, so has the file. */
  lemma ReachableServes(s: Selector) returns (file: string, pods: PodView)
    requires Reachable(s) && (s.cgroupPath != "" ==> Wanted(s) != "")
    ensures AdmittedAs(s, Some(file), Some(pods))
    ensures Rooted(s) ==> FromKernel(Some(file))
  {
    if Rooted(s) { FittingIsKernelPath(s); }
    var c := Fitting(s);
    FittingAdmitted(s);
    FittingText(s);
    PathCanBeRead(c.cgroupPath);
    file, pods := Cgroup.UNIFIED + c.cgroupPath, PodView(true, map[c.podUID := c.pod.value]);
    IdentifiedInPod(file, c.cgroupPath, c.pod.value);
  }

  /** The identifier reports a caller with a pod, without an error, and the selector admits it. */
  predicate AdmittedAs(s: Selector, file: Option<string>, pods: Option<PodView>) {
    var r := Identify(file, pods);
    !r.failed && r.caller.pod.Some? && Refuses(s, r.caller).None?
  }

  // ----- Which binaries a request can name

  /** A request for `binary` is one the selector's binary does not rule out. */
  predicate Asks(s: Selector, binary: string) {
    Server.NamesABinary(binary) && (s.binary == "" || s.binary == Server.Base(binary))
  }

  predicate Nameable(s: Selector) {
    '/' !in s.binary && s.binary != "."
  }

  lemma BaseHasNoSlash(path: string)
    requires Server.NamesABinary(path)
    ensures '/' !in Server.Base(path)
  {
    var segs := Split(Server.TrimSlashes(path), '/');
    SplitHasNoSep(Server.TrimSlashes(path), '/', |segs| - 1);
  }

  /** In any mode: some request is for the selector's binary exactly when that is a bare file name. */
  lemma AskedForIffNameable(s: Selector)
    ensures (exists binary :: Asks(s, binary)) <==> Nameable(s)
  {
    if binary :| Asks(s, binary) { BaseHasNoSlash(binary); }
    if Nameable(s) {
      var binary := if s.binary == "" then "app" else s.binary;
      assert '/' !in "app" && |"app"| == 3;
      Server.BaseIsLastElement("", binary);
      assert Asks(s, binary);
    }
  }

  // ----- The theorem

  /** Some request by some process, placed in a cgroup as the kernel prints it, is admitted as a pod's. */
  ghost predicate HasACaller(s: Selector) {
    && (exists binary :: Asks(s, binary))
    && (exists file, pods :: FromKernel(file) && AdmittedAs(s, file, pods))
  }

  /** Not being rejected is not enough to be served. Under `preferred` and `required`, a selector that is
      not rejected admits some request of a caller with a pod exactly when its binary is a bare name
      and its trimmed path, if it has one, begins with "/", has no newline and no segment after that
      which is empty, "." or "..", and, if a container is named too, goes below a pod only through a
      container. If the path fails the condition it admits nobody, unless the trimmed path is "/". */
  lemma ServableIffReachable(s: Selector, mode: Policy.IdentityMode)
    requires mode != Policy.Disabled && Policy.RejectionFor(s, mode).None?
    ensures HasACaller(s) <==> Nameable(s) && Reachable(s) && Rooted(s)
    ensures !(Reachable(s) && Rooted(s)) && Wanted(s) != "/" ==>
              forall file, pods :: FromKernel(file) ==> Refuses(s, Identify(file, pods).caller).Some?
  {
    AskedForIffNameable(s);
    if Reachable(s) && Rooted(s) {
      assert TrimSpace("/") == "/";
      var file, pods := ReachableServes(s);
    } else {
      forall file, pods | FromKernel(file)
        ensures !AdmittedAs(s, file, pods)
        ensures Wanted(s) != "/" ==> Refuses(s, Identify(file, pods).caller).Some?
      {
        if Reachable(s) { UnrootedServesNoPod(s, file, pods); } else { UnreachableServesNobody(s, file, pods); }
      }
    }
  }

  const DOTTED := Selector("app", "", "", map[], "/../kubepods")

  lemma SegmentBetween(above: string, seg: string, below: string)
    requires '/' !in seg
    ensures seg in Split(above + "/" + (seg + "/" + below), '/')
  {
    SplitConcat(above, seg + "/" + below, '/');
    SplitConcat(seg, below, '/');
    SplitAfter(seg, "", '/');
    assert seg + "" == seg;
    assert Split(seg, '/')[0] == seg;
  }

  lemma DottedUnreadable()
    ensures !PathReadable(DOTTED)
  {
    SegmentBetween("", "..", "kubepods");
    assert "" + "/" + (".." + "/" + "kubepods") == "/../kubepods";
    NoSuffix("/../kubepods", "/", 1);
  }

  lemma DottedNotRejected(mode: Policy.IdentityMode)
    requires mode != Policy.Disabled
    ensures Policy.RejectionFor(DOTTED, mode).None?
  {
    var path := "/../kubepods";
    assert path[|path| - 1] == 's' && path[0] == '/';
    assert TrimSpace(path) == path;
    NoSuffix(path, "/", 1);
  }

  /** A binding that is loaded as usable under both modes, and that nobody can ever be served from. */
  lemma DottedPathServesNobody(mode: Policy.IdentityMode, file: Option<string>, pods: Option<PodView>)
    requires mode != Policy.Disabled
    ensures Policy.RejectionFor(DOTTED, mode).None? && Refuses(DOTTED, Identify(file, pods).caller).Some?
  {
    DottedNotRejected(mode);
    DottedUnreadable();
    UnreachableServesNobody(DOTTED, file, pods);
  }

  const SLASHLESS := Selector("app", "", "", map[], "kubepods")

  lemma SlashlessSegments(s: Selector)
    requires |s.cgroupPath| > 2 && '/' !in s.cgroupPath && '\n' !in s.cgroupPath && s.container == ""
    ensures Reachable(s) && !Rooted(s) && Wanted(s) != "/"
  {
    var path := s.cgroupPath;
    assert path[0] in path && path[|path| - 1] in path;
    NoSuffix(path, "/", 1);
    SplitAfter(path, "", '/');
    assert path + "" == path && Split(path, '/') == [path];
    assert |".."| == 2 && !HasPrefix(path, "/");
  }

  lemma SlashlessNotRejected(mode: Policy.IdentityMode)
    requires mode != Policy.Disabled
    ensures Policy.RejectionFor(SLASHLESS, mode).None?
  {
    var path := "kubepods";
    assert path[0] == 'k' && path[|path| - 1] == 's';
    assert TrimSpace(path) == path;
    NoSuffix(path, "/", 1);
  }

  /** So is one whose path lacks the leading slash, and no process the kernel places in a cgroup, in a pod
      or not, is admitted by it. */
  lemma SlashlessPathServesNobody(mode: Policy.IdentityMode, file: Option<string>, pods: Option<PodView>)
    requires mode != Policy.Disabled && FromKernel(file)
    ensures Policy.RejectionFor(SLASHLESS, mode).None? && Reachable(SLASHLESS)
    ensures Refuses(SLASHLESS, Identify(file, pods).caller).Some?
  {
    SlashlessNotRejected(mode);
    assert SLASHLESS.cgroupPath == "kubepods";
    SlashlessSegments(SLASHLESS);
    UnrootedServesNoPod(SLASHLESS, file, pods);
  }

  const DOUBLED := Selector("app", "", "", map[], "//")

  /** "//" is not rejected as the root cgroup, and admits exactly the processes in the root cgroup. */
  lemma DoubledSlashAdmitsRoot(mode: Policy.IdentityMode, file: Option<string>, pods: Option<PodView>)
    requires mode != Policy.Disabled && FromKernel(file)
    ensures Policy.RejectionFor(DOUBLED, mode).None?
    ensures Refuses(DOUBLED, Identify(file, pods).caller).None? <==> Cgroup.PathIn(file.value) == Some("/")
  {
    assert TrimSpace("//") == "//" && "//"[..1] == "/" && "//"[1..] == "/";
    assert Wanted(DOUBLED) == "/";
    RootSegments();
    assert Split("/", '/')[1] == "";
    UnrootedServesNoPod(DOUBLED, file, pods);
  }

  const PATHED := Selector("/usr/bin/app", "", "default", map[], "")

  /** And a binary given as a path is passed under both modes, and no request is ever for it. */
  lemma PathedBinaryServesNobody(mode: Policy.IdentityMode, binary: string)
    requires mode != Policy.Disabled
    ensures Policy.RejectionFor(PATHED, mode).None? && !Asks(PATHED, binary)
  {
    assert PATHED.binary[0] == '/' && |"default"| == 7;
    AskedForIffNameable(PATHED);
  }
}
