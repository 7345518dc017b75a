/** Two components compute where a container's log files are: the webhook, as a volume and a
    sub-path expression that the kubelet expands, and the agent, as the path it reads or the target
    of the symbolic link it makes.  They agree exactly under the conditions proved here. */
module LogPaths {
  import opened Basics
  import opened Injector

  datatype PodId = PodId(namespace: string, name: string, uid: string)

  // ---------------------------------------------------------------- the agent

  function LogPath(logDir: string, pod: PodId, cp: ContainerPolicy): string {
    logDir + "/" + ("LogPilotPolicy/" + pod.namespace + "/" + pod.name + "/" + pod.uid + "/" + cp.name + "/" + cp.logType)
  }

  /** The directory of a pod's emptyDir volumes on the node, and in it the one that the agent takes
      for the log volume. */
  function EmptyDirs(uid: string): string {
    "/var/lib/kubelet/pods/" + uid + "/volumes/kubernetes.io~empty-dir"
  }

  function EmptyDirPath(uid: string): string {
    EmptyDirs(uid) + "/" + "log-pilot-logs"
  }

  /** Where the agent finds the files: `ensureLogPath` links to the container's standard output or
      to the emptyDir, or makes the log path itself a directory. */
  function ReadFrom(logDir: string, pod: PodId, cp: ContainerPolicy): string {
    if cp.path == STDOUT then "/var/log/pods/" + pod.namespace + "_" + pod.name + "_" + pod.uid + "/" + cp.name
    else if cp.delivery == BEST_EFFORT then EmptyDirPath(pod.uid) + "/" + (cp.name + "/" + cp.logType)
    else LogPath(logDir, pod, cp)
  }

  // ---------------------------------------------------------------- the kubelet

  /** Expansion of `$(NAME)` references; `$$` is an escaped `$`. */
  function Expand(s: string, env: map<string, string>): string
    decreases |s|
  {
    if s == "" then ""
    else if s[0] != '$' || |s| == 1 then [s[0]] + Expand(s[1..], env)
    else if s[1] == '$' then "$" + Expand(s[2..], env)
    else if s[1] == '(' then
      var k := Find(s[2..], ')');
      if k == |s| - 2 then "$(" + Expand(s[2..], env)
      else Value(env, s[2..][..k]) + Expand(s[2..][k + 1..], env)
    else ['$', s[1]] + Expand(s[2..], env)
  }

  /** Position of the first `c` in `s`, or its length. */
  function Find(s: string, c: char): (k: nat)
    ensures k <= |s| && (forall i :: 0 <= i < k ==> s[i] != c) && (k < |s| ==> s[k] == c)
  {
    if s == "" || s[0] == c then 0 else 1 + Find(s[1..], c)
  }

  function Value(env: map<string, string>, name: string): string {
    if name in env then env[name] else Ref(name)
  }

  /** What the kubelet adds to a pod: the value of each environment variable, and where the
      volumes that are neither host paths nor emptyDirs lie. */
  datatype Kubelet = Kubelet(valueOf: EnvVar -> string, otherVolume: nat -> string)

  /** Where a volume's content lies on the node. */
  function VolumePath(k: Kubelet, uid: string, name: string, source: Source): string {
    match source
    case HostPath(p) => p
    case EmptyDir => EmptyDirs(uid) + "/" + name
    case Other(id) => k.otherVolume(id)
  }

  /** The source of the volume `name`, the first if there are several. */
  function SourceOf(volumes: seq<Volume>, name: string): Source {
    if volumes == [] then Other(0)
    else if volumes[0].name == name then volumes[0].source
    else SourceOf(volumes[1..], name)
  }

  /** The values of a container's variables; of two with one name the later counts. */
  function Values(k: Kubelet, env: seq<EnvVar>): map<string, string> {
    if env == [] then map[] else var n := |env| - 1; Values(k, env[..n])[env[n].name := k.valueOf(env[n])]
  }

  /** What is mounted at `path`. */
  function MountAt(mounts: seq<Mount>, path: string): Option<Mount> {
    if mounts == [] then None
    else if mounts[0].path == path then Some(mounts[0])
    else MountAt(mounts[1..], path)
  }

  /** Where writes under a mount end up. */
  function Place(k: Kubelet, pod: PodId, env: map<string, string>, volumes: seq<Volume>, m: Mount): string {
    var root := VolumePath(k, pod.uid, m.volume, SourceOf(volumes, m.volume));
    if m.subPathExpr == "" then root else root + "/" + Expand(m.subPathExpr, env)
  }

  /** Where the container `c`, injected together with the pod's `volumes`, writes the files of a
      policy with path `path`: to the mount it then has at that path, if any. */
  function WrittenTo(k: Kubelet, pod: PodId, volumes: seq<Volume>, cps: seq<ContainerPolicy>, c: Container,
                     path: string): Option<string> {
    var c' := InjectContainer(c, cps);
    match MountAt(c'.mounts, path)
    case None => None
    case Some(m) => Some(Place(k, pod, Values(k, c'.env), AddVolume(volumes, cps), m))
  }

  lemma {:induction false} SourceOfLast(volumes: seq<Volume>, v: Volume)
    requires forall i :: 0 <= i < |volumes| ==> volumes[i].name != v.name
    ensures SourceOf(volumes + [v], v.name) == v.source
    decreases |volumes|
  {
    if volumes != [] {
      assert (volumes + [v])[1..] == volumes[1..] + [v];
      SourceOfLast(volumes[1..], v);
    }
  }

  lemma AddedSource(volumes: seq<Volume>, cps: seq<ContainerPolicy>)
    requires !HasVolume(volumes, VOLUME)
    ensures SourceOf(AddVolume(volumes, cps), VOLUME) == if AllBestEffort(cps) then EmptyDir else HostPath(HOST_PATH)
  {
    SourceOfLast(volumes, Volume(VOLUME, if AllBestEffort(cps) then EmptyDir else HostPath(HOST_PATH)));
  }

  // ---------------------------------------------------------------- expansion

  ghost predicate Plain(s: string) {
    forall i :: 0 <= i < |s| ==> s[i] != '$'
  }

  lemma {:induction false} ExpandPlain(a: string, b: string, env: map<string, string>)
    requires Plain(a)
    ensures Expand(a + b, env) == a + Expand(b, env)
    decreases |a|
  {
    hide Expand;
    if a == "" {
      assert a + b == b;
    } else {
      assert (a + b)[1..] == a[1..] + b;
      ExpandChar(a + b, env);
      ExpandPlain(a[1..], b, env);
      Assoc([a[0]], a[1..], Expand(b, env));
      assert a == [a[0]] + a[1..];
    }
  }

  lemma ExpandChar(s: string, env: map<string, string>)
    requires s != "" && s[0] != '$'
    ensures Expand(s, env) == [s[0]] + Expand(s[1..], env)
  {
  }

  lemma ExpandRef(name: string, rest: string, env: map<string, string>)
    requires forall i :: 0 <= i < |name| ==> name[i] != ')'
    requires name in env
    ensures Expand(Ref(name) + rest, env) == env[name] + Expand(rest, env)
  {
    var s := Ref(name) + rest;
    assert s[2..] == name + ")" + rest;
    var k := Find(s[2..], ')');
    assert s[2..][|name|] == ')';
    assert forall i :: 0 <= i < |name| ==> s[2..][i] == name[i];
    assert k == |name|;
    assert s[2..][..k] == name && s[2..][k + 1..] == rest;
  }

  lemma ExpandAllPlain(a: string, env: map<string, string>)
    requires Plain(a)
    ensures Expand(a, env) == a
  {
    ExpandPlain(a, "", env);
    assert a + "" == a;
  }

  /** The three variables that injection adds are there, under whatever value. */
  ghost predicate Defined(env: map<string, string>) {
    "NAMESPACE" in env && "POD_NAME" in env && "POD_UID" in env
  }

  /** They have the values the downward API gives them. */
  ghost predicate Downward(env: map<string, string>, pod: PodId) {
    && Defined(env)
    && env["NAMESPACE"] == pod.namespace && env["POD_NAME"] == pod.name && env["POD_UID"] == pod.uid
  }

  lemma ExpandGuaranteed(env: map<string, string>, cp: ContainerPolicy)
    requires cp.delivery != BEST_EFFORT && Plain(cp.name) && Plain(cp.logType) && Defined(env)
    ensures Expand(SubPathExpr(cp), env)
            == "LogPilotPolicy/" + env["NAMESPACE"] + "/" + env["POD_NAME"] + "/" + env["POD_UID"] + "/" + cp.name
               + "/" + cp.logType
  {
    hide Expand, Ref;
    var tail := "/" + cp.name + "/" + cp.logType;
    var uid := Ref("POD_UID") + tail;
    var name := Ref("POD_NAME") + ("/" + uid);
    var ns := Ref("NAMESPACE") + ("/" + name);
    assert SubPathExpr(cp) == "LogPilotPolicy/" + ns;
    ExpandPlain("LogPilotPolicy/", ns, env);
    ExpandRef("NAMESPACE", "/" + name, env);
    ExpandPlain("/", name, env);
    ExpandRef("POD_NAME", "/" + uid, env);
    ExpandPlain("/", uid, env);
    ExpandRef("POD_UID", tail, env);
    ExpandAllPlain(tail, env);
  }

  // ---------------------------------------------------------------- the injected variables

  lemma {:induction false} ValuesDefined(k: Kubelet, env: seq<EnvVar>, name: string)
    ensures name in Values(k, env) <==> HasEnv(env, name)
    decreases |env|
  {
    if env != [] {
      var n := |env| - 1;
      ValuesDefined(k, env[..n], name);
      HasEnvMore(env[..n], env[n], name);
      assert env[..n] + [env[n]] == env;
    }
  }

  lemma InjectedDefined(k: Kubelet, env: seq<EnvVar>)
    ensures Defined(Values(k, AddEnv(env, DOWNWARD)))
  {
    var more := AddEnv(env, DOWNWARD);
    AddEnvFacts(env, DOWNWARD);
    assert HasEnv(more, DOWNWARD[0].name) && HasEnv(more, DOWNWARD[1].name) && HasEnv(more, DOWNWARD[2].name);
    hide HasEnv, AddEnv, Values;
    ValuesDefined(k, more, "NAMESPACE");
    ValuesDefined(k, more, "POD_NAME");
    ValuesDefined(k, more, "POD_UID");
  }

  /** The kubelet resolves references to the pod's own fields. */
  ghost predicate FieldRefs(k: Kubelet, pod: PodId) {
    && k.valueOf(EnvVar("POD_NAME", "metadata.name")) == pod.name
    && k.valueOf(EnvVar("NAMESPACE", "metadata.namespace")) == pod.namespace
    && k.valueOf(EnvVar("POD_UID", "metadata.uid")) == pod.uid
  }

  /** A container that does not define the three names itself gets the pod's values. */
  lemma InjectedDownward(k: Kubelet, pod: PodId, env: seq<EnvVar>)
    requires FieldRefs(k, pod)
    requires !HasEnv(env, "NAMESPACE") && !HasEnv(env, "POD_NAME") && !HasEnv(env, "POD_UID")
    ensures Downward(Values(k, AddEnv(env, DOWNWARD)), pod)
  {
    var n, a, b, c := |env|, DOWNWARD[0], DOWNWARD[1], DOWNWARD[2];
    DownwardDistinct(0);
    DownwardDistinct(1);
    HasEnvMore(env, a, b.name);
    HasEnvMore(env, a, c.name);
    HasEnvMore(env + [a], b, c.name);
    var more := env + [a] + [b] + [c];
    assert AddEnv(env, DOWNWARD) == more by {
      hide HasEnv;
      assert DOWNWARD[1..] == [b, c] && DOWNWARD[1..][1..] == [c] && [c][1..] == [];
      assert AddEnv(more, []) == more && AddEnv(env + [a] + [b], [c]) == more;
      assert AddEnv(env + [a], [b, c]) == AddEnv(env + [a] + [b], [b, c][1..]);
    }
    assert more[..n + 2] == env + [a] + [b] && (env + [a] + [b])[..n + 1] == env + [a] && (env + [a])[..n] == env;
    var v := Values(k, env);
    assert Values(k, env + [a]) == v[a.name := pod.name];
    assert Values(k, env + [a] + [b]) == v[a.name := pod.name][b.name := pod.namespace];
    assert Values(k, more) == v[a.name := pod.name][b.name := pod.namespace][c.name := pod.uid];
  }

  // ---------------------------------------------------------------- the mount at a path

  /** The first policy that claims a path. */
  function Claim(cps: seq<ContainerPolicy>, path: string): (r: Option<ContainerPolicy>)
    ensures r.Some? ==> r.value in cps && r.value.path == path
    ensures r.None? ==> forall cp :: cp in cps ==> cp.path != path
  {
    if cps == [] then None else if cps[0].path == path then Some(cps[0]) else Claim(cps[1..], path)
  }

  lemma {:induction false} MountAtMore(mounts: seq<Mount>, m: Mount, path: string)
    ensures MountAt(mounts, path).Some? <==> HasMount(mounts, path)
    ensures MountAt(mounts + [m], path)
            == if HasMount(mounts, path) then MountAt(mounts, path) else if m.path == path then Some(m) else None
    decreases |mounts|
  {
    if mounts == [] {
      assert ([m])[1..] == [] && MountAt([], path) == None;
      assert mounts + [m] == [m];
    } else {
      assert (mounts + [m])[1..] == mounts[1..] + [m];
      MountAtMore(mounts[1..], m, path);
      assert HasMount(mounts, path) <==> mounts[0].path == path || HasMount(mounts[1..], path) by {
        if i :| 1 <= i < |mounts| && mounts[i].path == path {
          assert mounts[1..][i - 1].path == path;
        }
        if i :| 0 <= i < |mounts[1..]| && mounts[1..][i].path == path {
          assert mounts[i + 1].path == path;
        }
      }
    }
  }

  /** After the injection a path is mounted as it was before, or else for the first policy that
      claims it. */
  lemma {:induction false} MountAfter(mounts: seq<Mount>, mine: seq<ContainerPolicy>, path: string)
    requires path != STDOUT
    ensures MountAt(AddMounts(mounts, mine), path)
            == if HasMount(mounts, path) then MountAt(mounts, path)
               else match Claim(mine, path) case None => None case Some(cp) => Some(MountFor(cp))
    decreases |mine|
  {
    hide HasMount, MountAt, MountFor;
    if mine == [] {
      MountAtMore(mounts, Mount("", "", ""), path);
    } else {
      var m := MountFor(mine[0]);
      MountForPath(mine[0]);
      MountAtMore(mounts, m, path);
      HasMountMore(mounts, m, path);
      if mine[0].path == STDOUT || HasMount(mounts, mine[0].path) {
        MountAfter(mounts, mine[1..], path);
      } else {
        MountAfter(mounts + [m], mine[1..], path);
      }
    }
  }

  // ---------------------------------------------------------------- comparing paths

  ghost predicate OneSegment(s: string) {
    forall i :: 0 <= i < |s| ==> s[i] != '/'
  }

  /** Paths with the same last segment separator agree segment by segment from the end. */
  lemma LastSegment(a: string, b: string, x: string, y: string)
    requires OneSegment(x) && OneSegment(y)
    ensures a + "/" + x == b + "/" + y <==> a == b && x == y
  {
    var s, t := a + "/" + x, b + "/" + y;
    if s == t {
      assert s[|a|] == '/' && t[|b|] == '/';
      assert forall i :: |a| < i < |s| ==> s[i] == x[i - |a| - 1];
      assert forall i :: |b| < i < |t| ==> t[i] == y[i - |b| - 1];
      assert |a| == |b|;
      assert a == s[..|a|] && b == t[..|b|];
      assert x == s[|a| + 1..] && y == t[|b| + 1..];
    }
  }

  lemma EmptyDirIsNotHostPath(uid: string, a: string, b: string)
    ensures EmptyDirPath(uid) + a != HOST_PATH + b
  {
    assert (EmptyDirPath(uid) + a)[6] == 'i' && (HOST_PATH + b)[6] == 'o';
  }

  /** Names as Kubernetes and the policies use them: no '/' in any of them. */
  ghost predicate Names(pod: PodId) {
    OneSegment(pod.namespace) && OneSegment(pod.name) && OneSegment(pod.uid)
  }

  ghost predicate GoodName(s: string) {
    Plain(s) && OneSegment(s)
  }

  function Join(root: string, a: string, b: string, c: string): string {
    root + "/" + "LogPilotPolicy" + "/" + a + "/" + b + "/" + c
  }

  /** The container's own directory is the same for the volume and for the agent. */
  ghost predicate SameRoot(logDir: string, pod: PodId, env: map<string, string>) {
    Defined(env) &&
    Join(HOST_PATH, env["NAMESPACE"], env["POD_NAME"], env["POD_UID"]) == Join(logDir, pod.namespace, pod.name, pod.uid)
  }

  /** Which it is if and only if the agent uses the default log directory and the three variables
      have the pod's values. */
  lemma {:induction false} SameRootExact(logDir: string, pod: PodId, env: map<string, string>)
    requires Names(pod) && Defined(env)
    requires OneSegment(env["NAMESPACE"]) && OneSegment(env["POD_NAME"]) && OneSegment(env["POD_UID"])
    ensures SameRoot(logDir, pod, env) <==> logDir == HOST_PATH && Downward(env, pod)
  {
    hide OneSegment;
    var a, b := HOST_PATH + "/" + "LogPilotPolicy", logDir + "/" + "LogPilotPolicy";
    var a1, b1 := a + "/" + env["NAMESPACE"], b + "/" + pod.namespace;
    var a2, b2 := a1 + "/" + env["POD_NAME"], b1 + "/" + pod.name;
    hide HOST_PATH;
    assert OneSegment("LogPilotPolicy") by { NoSlash(); }
    LastSegment(a2, b2, env["POD_UID"], pod.uid);
    LastSegment(a1, b1, env["POD_NAME"], pod.name);
    LastSegment(a, b, env["NAMESPACE"], pod.namespace);
    LastSegment(HOST_PATH, logDir, "LogPilotPolicy", "LogPilotPolicy");
  }

  lemma NoSlash()
    ensures OneSegment("LogPilotPolicy") && OneSegment("log-pilot") && OneSegment("log") && OneSegment("var")
  {
  }

  /** The path of a bestEffort policy in the host volume is never an agent's log path. */
  lemma BestEffortIsNoLogPath(logDir: string, pod: PodId, name: string, x: string, y: string)
    requires Names(pod) && OneSegment(name) && OneSegment(x) && OneSegment(y)
    ensures HOST_PATH + "/" + name + "/" + x != Join(logDir, pod.namespace, pod.name, pod.uid) + "/" + name + "/" + y
  {
    assert HOST_PATH == "" + "/" + "var" + "/" + "log" + "/" + "log-pilot";
    hide HOST_PATH, OneSegment;
    var root := logDir + "/" + "LogPilotPolicy";
    var r1 := root + "/" + pod.namespace;
    var r2 := r1 + "/" + pod.name;
    NoSlash();
    LastSegment(HOST_PATH + "/" + name, r2 + "/" + pod.uid + "/" + name, x, y);
    LastSegment(HOST_PATH, r2 + "/" + pod.uid, name, name);
    LastSegment("" + "/" + "var" + "/" + "log", r2, "log-pilot", pod.uid);
    LastSegment("" + "/" + "var", r1, "log", pod.name);
    LastSegment("", root, "var", pod.namespace);
    assert |root| > 0;
  }

  // ---------------------------------------------------------------- agreement

  lemma GuaranteedPath(logDir: string, pod: PodId, cp: ContainerPolicy)
    requires cp.path != STDOUT && cp.delivery != BEST_EFFORT
    ensures ReadFrom(logDir, pod, cp) == Join(logDir, pod.namespace, pod.name, pod.uid) + "/" + cp.name + "/" + cp.logType
  {
    assert "LogPilotPolicy/" == "LogPilotPolicy" + "/";
  }

  lemma BestEffortPath(logDir: string, pod: PodId, cp: ContainerPolicy)
    requires cp.path != STDOUT && cp.delivery == BEST_EFFORT
    ensures ReadFrom(logDir, pod, cp) == EmptyDirPath(pod.uid) + "/" + cp.name + "/" + cp.logType
  {
  }

  /** The mount of the policy `first` and what the agent reads for `cp`, a policy of the same
      container with the same path, in a volume on `root`. */
  ghost predicate SamePlace(root: string, logDir: string, pod: PodId, env: map<string, string>,
                            first: ContainerPolicy, cp: ContainerPolicy) {
    root + "/" + Expand(SubPathExpr(first), env) == ReadFrom(logDir, pod, cp)
  }

  lemma WrittenGuaranteed(env: map<string, string>, first: ContainerPolicy)
    requires first.delivery != BEST_EFFORT && Plain(first.name) && Plain(first.logType) && Defined(env)
    ensures HOST_PATH + "/" + Expand(SubPathExpr(first), env)
            == Join(HOST_PATH, env["NAMESPACE"], env["POD_NAME"], env["POD_UID"]) + "/" + first.name + "/" + first.logType
  {
    ExpandGuaranteed(env, first);
    assert "LogPilotPolicy/" == "LogPilotPolicy" + "/";
  }

  lemma WrittenBestEffort(root: string, env: map<string, string>, first: ContainerPolicy)
    requires first.delivery == BEST_EFFORT && Plain(first.name) && Plain(first.logType)
    ensures root + "/" + Expand(SubPathExpr(first), env) == root + "/" + first.name + "/" + first.logType
  {
    ExpandAllPlain(first.name + "/" + first.logType, env);
  }

  lemma HostAgree(logDir: string, pod: PodId, env: map<string, string>, first: ContainerPolicy, cp: ContainerPolicy)
    requires cp.path != STDOUT && first.name == cp.name && Names(pod) && Defined(env)
    requires GoodName(cp.name) && GoodName(cp.logType) && GoodName(first.logType)
    ensures SamePlace(HOST_PATH, logDir, pod, env, first, cp) <==>
            first.delivery != BEST_EFFORT && cp.delivery != BEST_EFFORT && first.logType == cp.logType
            && SameRoot(logDir, pod, env)
  {
    var name, x, y := cp.name, first.logType, cp.logType;
    hide Expand, EmptyDirPath, HOST_PATH, ReadFrom, SubPathExpr, Plain, Join, Names, OneSegment;
    if first.delivery != BEST_EFFORT {
      WrittenGuaranteed(env, first);
    } else {
      WrittenBestEffort(HOST_PATH, env, first);
    }
    if cp.delivery == BEST_EFFORT {
      BestEffortPath(logDir, pod, cp);
      var a := if first.delivery == BEST_EFFORT then "/" + name + "/" + x else "/" + Expand(SubPathExpr(first), env);
      EmptyDirIsNotHostPath(pod.uid, "/" + name + "/" + y, a);
      assert HOST_PATH + "/" + Expand(SubPathExpr(first), env) == HOST_PATH + ("/" + Expand(SubPathExpr(first), env));
      assert HOST_PATH + "/" + name + "/" + x == HOST_PATH + ("/" + name + "/" + x);
      assert EmptyDirPath(pod.uid) + "/" + name + "/" + y == EmptyDirPath(pod.uid) + ("/" + name + "/" + y);
    } else {
      GuaranteedPath(logDir, pod, cp);
      var b := Join(logDir, pod.namespace, pod.name, pod.uid);
      if first.delivery == BEST_EFFORT {
        BestEffortIsNoLogPath(logDir, pod, name, x, y);
      } else {
        var a := Join(HOST_PATH, env["NAMESPACE"], env["POD_NAME"], env["POD_UID"]);
        LastSegment(a + "/" + name, b + "/" + name, x, y);
        LastSegment(a, b, name, name);
      }
    }
  }

  lemma EmptyDirAgree(logDir: string, pod: PodId, env: map<string, string>, first: ContainerPolicy, cp: ContainerPolicy)
    requires cp.path != STDOUT && first.name == cp.name
    requires cp.delivery == BEST_EFFORT && first.delivery == BEST_EFFORT
    requires GoodName(cp.name) && GoodName(cp.logType) && GoodName(first.logType)
    ensures SamePlace(EmptyDirPath(pod.uid), logDir, pod, env, first, cp) <==> first.logType == cp.logType
  {
    hide Expand, EmptyDirPath, ReadFrom, SubPathExpr, Plain, OneSegment;
    var root := EmptyDirPath(pod.uid);
    WrittenBestEffort(root, env, first);
    BestEffortPath(logDir, pod, cp);
    LastSegment(root + "/" + cp.name, root + "/" + cp.name, first.logType, cp.logType);
  }

  // ---------------------------------------------------------------- standard output

  /** Where the kubelet keeps the standard output of the containers of a pod, by segments. */
  function KubeletSegments(pod: PodId, container: string): seq<string> {
    ["var", "log", "pods", pod.namespace + "_" + pod.name + "_" + pod.uid, container]
  }

  /** An absolute path from its segments. */
  function Path(segments: seq<string>): string {
    if segments == [] then "" else var n := |segments| - 1; Path(segments[..n]) + "/" + segments[n]
  }

  lemma PathMore(segments: seq<string>, last: string)
    ensures Path(segments + [last]) == Path(segments) + "/" + last
  {
    assert (segments + [last])[..|segments|] == segments;
  }

  lemma PodsDir()
    ensures Path(["var", "log", "pods"]) == "/var/log/pods"
  {
    hide Path;
    PathMore([], "var");
    PathMore(["var"], "log");
    PathMore(["var", "log"], "pods");
    assert Path([]) == "" by { EmptyPath(); }
    assert [] + ["var"] == ["var"] && ["var"] + ["log"] == ["var", "log"];
    assert ["var", "log"] + ["pods"] == ["var", "log", "pods"];
  }

  lemma EmptyPath()
    ensures Path([]) == ""
  {
  }

  /** For the path "-" the agent reads what the kubelet keeps for that container, whatever the
      delivery and the log directory. */
  lemma {:induction false} StdoutExact(logDir: string, pod: PodId, cp: ContainerPolicy)
    requires cp.path == STDOUT
    ensures ReadFrom(logDir, pod, cp) == Path(KubeletSegments(pod, cp.name))
  {
    var id := pod.namespace + "_" + pod.name + "_" + pod.uid;
    assert ReadFrom(logDir, pod, cp) == "/var/log/pods/" + id + "/" + cp.name;
    hide Path, ReadFrom;
    PodsDir();
    PathMore(["var", "log", "pods"], id);
    PathMore(["var", "log", "pods"] + [id], cp.name);
    assert ["var", "log", "pods"] + [id] + [cp.name] == KubeletSegments(pod, cp.name);
    assert "/var/log/pods" + "/" == "/var/log/pods/";
  }

  // ---------------------------------------------------------------- a mount of the container's own

  /** From the directory `root` the mount leads to `target`: it has no sub-path and `root` is the
      target, or its sub-path expands to what follows `root` in the target. */
  ghost predicate Leads(root: string, m: Mount, env: map<string, string>, target: string) {
    if m.subPathExpr == "" then root == target
    else root + "/" <= target && Expand(m.subPathExpr, env) == target[|root| + 1..]
  }

  /** When a mount of the container's own, at the path of the policy `cp`, is where the agent reads.
      The agent looks for bestEffort files in the emptyDir that is the log volume, so no emptyDir
      that the pod declares will do; a mount that names the log volume before it exists will, with
      the policy's own sub-path.  Otherwise the source and the sub-path must lead there. */
  ghost predicate OwnMount(k: Kubelet, logDir: string, pod: PodId, env: map<string, string>, volumes: seq<Volume>,
                           m: Mount, cp: ContainerPolicy) {
    match SourceOf(volumes, m.volume)
    case EmptyDir =>
      if cp.delivery == BEST_EFFORT
      then m.volume == VOLUME && Expand(m.subPathExpr, env) == cp.name + "/" + cp.logType
      else Leads(EmptyDirs(pod.uid) + "/" + m.volume, m, env, ReadFrom(logDir, pod, cp))
    case HostPath(path) => Leads(path, m, env, ReadFrom(logDir, pod, cp))
    case Other(id) => Leads(k.otherVolume(id), m, env, ReadFrom(logDir, pod, cp))
  }

  lemma LeadsExact(root: string, m: Mount, env: map<string, string>, target: string)
    ensures (if m.subPathExpr == "" then root else root + "/" + Expand(m.subPathExpr, env)) == target
            <==> Leads(root, m, env, target)
  {
    hide Expand;
    var sub := Expand(m.subPathExpr, env);
    if m.subPathExpr != "" {
      if root + "/" + sub == target {
        assert target[..|root| + 1] == root + "/" && target[|root| + 1..] == sub;
      } else if root + "/" <= target {
        assert target == root + "/" + target[|root| + 1..];
      }
    }
  }

  /** The first segment of a path, and what follows it, are unique. */
  lemma FirstSegment(a: string, b: string, x: string, y: string)
    requires OneSegment(a) && OneSegment(b)
    ensures a + "/" + x == b + "/" + y <==> a == b && x == y
    ensures a != b + "/" + y
  {
    var s, t := a + "/" + x, b + "/" + y;
    assert t[|b|] == '/';
    if s == t {
      assert s[|a|] == '/';
      assert forall i :: 0 <= i < |a| ==> s[i] == a[i];
      assert forall i :: 0 <= i < |b| ==> t[i] == b[i];
      assert |a| == |b|;
      assert a == s[..|a|] && b == t[..|b|] && x == s[|a| + 1..] && y == t[|b| + 1..];
    }
  }

  lemma SamePrefix(a: string, x: string, y: string)
    ensures a + x == a + y <==> x == y
  {
    assert (a + x)[|a|..] == x && (a + y)[|a|..] == y;
  }

  /** Among emptyDirs, the volume's name and the sub-path decide. */
  lemma {:induction false} OwnEmptyDirExact(uid: string, m: Mount, env: map<string, string>, rest: string)
    requires OneSegment(m.volume) && rest != ""
    ensures var root := EmptyDirs(uid) + "/" + m.volume;
            (if m.subPathExpr == "" then root else root + "/" + Expand(m.subPathExpr, env)) == EmptyDirPath(uid) + "/" + rest
            <==> m.volume == VOLUME && Expand(m.subPathExpr, env) == rest
  {
    assert OneSegment(VOLUME);
    assert Expand("", env) == "";
    hide Expand, EmptyDirs, OneSegment, VOLUME;
    var dir, sub := EmptyDirs(uid) + "/", Expand(m.subPathExpr, env);
    FirstSegment(m.volume, VOLUME, sub, rest);
    assert EmptyDirPath(uid) + "/" + rest == dir + (VOLUME + "/" + rest);
    SamePrefix(dir, m.volume, VOLUME + "/" + rest);
    SamePrefix(dir, m.volume + "/" + sub, VOLUME + "/" + rest);
    assert dir + m.volume + "/" + sub == dir + (m.volume + "/" + sub);
  }

  lemma {:induction false} EmptyDirDeclared(volumes: seq<Volume>, name: string)
    requires SourceOf(volumes, name) == EmptyDir && GoodVolumes(volumes)
    ensures OneSegment(name)
    decreases |volumes|
  {
    if volumes != [] && volumes[0].name != name {
      EmptyDirDeclared(volumes[1..], name);
    }
  }

  lemma OwnMountExact(k: Kubelet, logDir: string, pod: PodId, env: map<string, string>, volumes: seq<Volume>, m: Mount,
                      cp: ContainerPolicy)
    requires cp.path != STDOUT && GoodVolumes(volumes)
    ensures Place(k, pod, env, volumes, m) == ReadFrom(logDir, pod, cp) <==> OwnMount(k, logDir, pod, env, volumes, m, cp)
  {
    hide Expand, EmptyDirs, EmptyDirPath, SourceOf, Leads;
    var source := SourceOf(volumes, m.volume);
    if source.EmptyDir? && cp.delivery == BEST_EFFORT {
      EmptyDirDeclared(volumes, m.volume);
      OwnEmptyDirExact(pod.uid, m, env, cp.name + "/" + cp.logType);
    } else {
      LeadsExact(VolumePath(k, pod.uid, m.volume, source), m, env, ReadFrom(logDir, pod, cp));
    }
  }

  // ---------------------------------------------------------------- every policy of every container

  /** When the container `c` writes the files of its policy `cp` where the agent reads them.
      Unless the container has a mount of its own at the path, it is the first policy to claim
      the path that decides: it must have the log type of `cp`; a bestEffort policy needs all of
      the pod's policies to be bestEffort; a guaranteed one needs the first to be guaranteed too,
      the agent's directory to be the default one, and the variables to have the pod's values. */
  ghost predicate Agreeing(k: Kubelet, logDir: string, pod: PodId, volumes: seq<Volume>, cps: seq<ContainerPolicy>,
                           c: Container, cp: ContainerPolicy) {
    var env := Values(k, AddEnv(c.env, DOWNWARD));
    match MountAt(c.mounts, cp.path)
    case Some(own) => OwnMount(k, logDir, pod, env, AddVolume(volumes, cps), own, cp)
    case None =>
      var first := Claim(Named(cps, c.name), cp.path);
      && first.Some? && first.value.logType == cp.logType
      && if cp.delivery == BEST_EFFORT then AllBestEffort(cps)
         else first.value.delivery != BEST_EFFORT && SameRoot(logDir, pod, env)
  }

  /** Volume names hold no '/', as Kubernetes demands. */
  ghost predicate GoodVolumes(volumes: seq<Volume>) {
    forall i :: 0 <= i < |volumes| ==> OneSegment(volumes[i].name)
  }

  lemma GoodVolumesMore(volumes: seq<Volume>, cps: seq<ContainerPolicy>)
    requires GoodVolumes(volumes)
    ensures GoodVolumes(AddVolume(volumes, cps))
  {
    assert OneSegment(VOLUME);
  }

  lemma {:induction false} NamedAre(cps: seq<ContainerPolicy>, name: string)
    ensures forall cp :: cp in Named(cps, name) <==> cp in cps && cp.name == name
    decreases |cps|
  {
    if cps != [] {
      NamedAre(cps[1..], name);
    }
  }

  lemma MountPlace(k: Kubelet, pod: PodId, env: map<string, string>, volumes: seq<Volume>, cps: seq<ContainerPolicy>,
                   first: ContainerPolicy)
    requires !HasVolume(volumes, VOLUME)
    ensures var root := if AllBestEffort(cps) then EmptyDirPath(pod.uid) else HOST_PATH;
            Place(k, pod, env, AddVolume(volumes, cps), MountFor(first)) == root + "/" + Expand(SubPathExpr(first), env)
  {
    assert |SubPathExpr(first)| > 0;
    hide Expand, EmptyDirPath, HOST_PATH, SourceOf, AddVolume, HasVolume, SubPathExpr;
    AddedSource(volumes, cps);
  }

  /** For every policy of every container that is injected: the container writes where the agent
      reads if and only if the policy is agreeing. */
  lemma {:induction false} PathsAgree(k: Kubelet, logDir: string, pod: PodId, volumes: seq<Volume>,
                                      cps: seq<ContainerPolicy>, c: Container, cp: ContainerPolicy)
    requires cp in cps && cp.name == c.name && cp.path != STDOUT && !HasVolume(volumes, VOLUME)
    requires Names(pod) && GoodName(c.name) && forall q :: q in cps ==> GoodName(q.logType)
    requires GoodVolumes(volumes)
    ensures var written := WrittenTo(k, pod, volumes, cps, c, cp.path);
            && written.Some?
            && (written.value == ReadFrom(logDir, pod, cp) <==> Agreeing(k, logDir, pod, volumes, cps, c, cp))
  {
    hide Place, Values, AddMounts, AddEnv, Named, ReadFrom, MountAt, Names, GoodName, SameRoot, HasMount, Claim, OwnMount,
         GoodVolumes, EmptyDirPath, EmptyDirs, HOST_PATH, AddVolume, HasVolume, DOWNWARD, MountFor, Expand, SubPathExpr, Defined;
    NamedAre(cps, c.name);
    var mine, env := Named(cps, c.name), Values(k, AddEnv(c.env, DOWNWARD));
    MountAfter(c.mounts, mine, cp.path);
    MountAtMore(c.mounts, Mount("", "", ""), cp.path);
    InjectedDefined(k, c.env);
    if !HasMount(c.mounts, cp.path) {
      ClaimSome(mine, cp);
      var first := Claim(mine, cp.path).value;
      MountPlace(k, pod, env, volumes, cps, first);
      if AllBestEffort(cps) {
        EmptyDirAgree(logDir, pod, env, first, cp);
      } else {
        HostAgree(logDir, pod, env, first, cp);
      }
    } else {
      GoodVolumesMore(volumes, cps);
      OwnMountExact(k, logDir, pod, env, AddVolume(volumes, cps), MountAt(c.mounts, cp.path).value, cp);
    }
  }

  lemma ClaimSome(mine: seq<ContainerPolicy>, cp: ContainerPolicy)
    requires cp in mine
    ensures var first := Claim(mine, cp.path); first.Some? && first.value in mine
  {
  }

  /** The same for a container that neither mounts the path nor defines the three variables
      itself. */
  lemma {:induction false} PathsAgreePlain(k: Kubelet, logDir: string, pod: PodId, volumes: seq<Volume>,
                                           cps: seq<ContainerPolicy>, c: Container, cp: ContainerPolicy)
    requires cp in cps && cp.name == c.name && cp.path != STDOUT && !HasVolume(volumes, VOLUME)
    requires Names(pod) && GoodName(c.name) && forall q :: q in cps ==> GoodName(q.logType)
    requires GoodVolumes(volumes) && FieldRefs(k, pod) && !HasMount(c.mounts, cp.path)
    requires !HasEnv(c.env, "NAMESPACE") && !HasEnv(c.env, "POD_NAME") && !HasEnv(c.env, "POD_UID")
    ensures var written, first := WrittenTo(k, pod, volumes, cps, c, cp.path), Claim(Named(cps, c.name), cp.path);
            && written.Some? && first.Some?
            && (written.value == ReadFrom(logDir, pod, cp) <==>
                && first.value.logType == cp.logType
                && if cp.delivery == BEST_EFFORT then AllBestEffort(cps)
                   else first.value.delivery != BEST_EFFORT && logDir == HOST_PATH)
  {
    var env := Values(k, AddEnv(c.env, DOWNWARD));
    hide WrittenTo, ReadFrom, Values, AddEnv, DOWNWARD, Place, HasMount, HasEnv, HasVolume, AddVolume, GoodName, SameRoot,
         Named, Claim, AllBestEffort, HOST_PATH, OneSegment;
    PathsAgree(k, logDir, pod, volumes, cps, c, cp);
    NamedAre(cps, c.name);
    ClaimSome(Named(cps, c.name), cp);
    MountAtMore(c.mounts, Mount("", "", ""), cp.path);
    InjectedDownward(k, pod, c.env);
    SameRootExact(logDir, pod, env);
  }

  /** Two guaranteed policies of a container with one path: the second one's log path stays empty,
      whatever the agent's log directory, because the container writes to the first one's. */
  lemma {:induction false} PathClaimedTwice(k: Kubelet, logDir: string, pod: PodId, name: string, path: string,
                                            x: string, y: string)
    requires path != STDOUT && x != y && Names(pod) && GoodName(name) && GoodName(x) && GoodName(y)
    ensures var a, b := ContainerPolicy(name, x, path, "", 0), ContainerPolicy(name, y, path, "", 0);
            var c := Container(name, [], []);
            && InjectContainer(c, [a, b]).mounts == [MountFor(a)]
            && WrittenTo(k, pod, [], [a, b], c, path).Some?
            && WrittenTo(k, pod, [], [a, b], c, path).value != ReadFrom(logDir, pod, b)
  {
    var a, b := ContainerPolicy(name, x, path, "", 0), ContainerPolicy(name, y, path, "", 0);
    var c, cps := Container(name, [], []), [a, b];
    assert cps[1..] == [b] && [b][1..] == [];
    assert Named([b], name) == [b] + Named([], name) && Named(cps, name) == [a] + Named([b], name);
    assert Named(cps, name) == cps;
    assert HasMount([MountFor(a)], path) by { assert [MountFor(a)][0].path == path; }
    assert AddMounts([MountFor(a)], [b]) == AddMounts([MountFor(a)], []);
    assert [] + [MountFor(a)] == [MountFor(a)] && !HasMount([], path);
    assert AddMounts([], cps) == AddMounts([MountFor(a)], [b]) == [MountFor(a)];
    assert Claim(cps, path) == Some(a) && MountAt([], path) == None;
    hide GoodName, Names, WrittenTo, ReadFrom, SameRoot, HOST_PATH;
    PathsAgree(k, logDir, pod, [], cps, c, b);
  }

  /** An emptyDir of the container's own, with the sub-path that injection would give it, is not
      where the agent looks. */
  lemma {:induction false} OwnEmptyDir(k: Kubelet, logDir: string, pod: PodId, name: string, logType: string, path: string)
    requires path != STDOUT && Names(pod) && GoodName(name) && GoodName(logType)
    ensures var cp := ContainerPolicy(name, logType, path, BEST_EFFORT, 0);
            var c := Container(name, [], [Mount("data", path, name + "/" + logType)]);
            var volumes := [Volume("data", EmptyDir)];
            && WrittenTo(k, pod, volumes, [cp], c, path).Some?
            && WrittenTo(k, pod, volumes, [cp], c, path).value != ReadFrom(logDir, pod, cp)
  {
    var cp := ContainerPolicy(name, logType, path, BEST_EFFORT, 0);
    var own := Mount("data", path, name + "/" + logType);
    var c, volumes := Container(name, [], [own]), [Volume("data", EmptyDir)];
    assert MountAt(c.mounts, path) == Some(own);
    assert "data"[0] != VOLUME[0];
    var more := AddVolume(volumes, [cp]);
    assert more[0] == volumes[0];
    assert SourceOf(more, "data") == EmptyDir;
    assert OneSegment("data");
    hide GoodName, Names, WrittenTo, ReadFrom, Expand, AddVolume, VOLUME;
    PathsAgree(k, logDir, pod, volumes, [cp], c, cp);
  }
}
