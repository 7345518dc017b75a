/** The admission webhook's pod mutation: environment variables, log mounts, the log volume and the
    policy annotation.  Label selectors and JSON encoding are functions handed in. */
module Injector {
  import opened Basics

  const VOLUME := "log-pilot-logs"
  const HOST_PATH := "/var/log/log-pilot"
  const ANNOTATION := "beta.logpilot.io/log-policy"
  const BEST_EFFORT := "bestEffort"
  const STDOUT := "-"

  datatype EnvVar = EnvVar(name: string, fieldPath: string)

  datatype Mount = Mount(volume: string, path: string, subPathExpr: string)

  datatype Container = Container(name: string, env: seq<EnvVar>, mounts: seq<Mount>)

  datatype Source = HostPath(path: string) | EmptyDir | Other(id: nat)

  datatype Volume = Volume(name: string, source: Source)

  /** A container policy; `config` stands for its remaining fields. */
  datatype ContainerPolicy = ContainerPolicy(name: string, logType: string, path: string, delivery: string, config: nat)

  type Labels = map<string, string>

  /** A LogPilotPolicy: its selector, applied to the pod's labels, and its container policies. */
  datatype Policy = Policy(matches: Labels -> bool, containers: seq<ContainerPolicy>)

  datatype PodSpec = PodSpec(labels: Labels, containers: seq<Container>, volumes: seq<Volume>,
                             annotations: map<string, string>)

  // ---------------------------------------------------------------- what injection computes

  const DOWNWARD := [EnvVar("POD_NAME", "metadata.name"), EnvVar("NAMESPACE", "metadata.namespace"),
                     EnvVar("POD_UID", "metadata.uid")]

  predicate HasEnv(env: seq<EnvVar>, name: string) {
    exists i :: 0 <= i < |env| && env[i].name == name
  }

  predicate HasMount(mounts: seq<Mount>, path: string) {
    exists i :: 0 <= i < |mounts| && mounts[i].path == path
  }

  predicate HasVolume(volumes: seq<Volume>, name: string) {
    exists i :: 0 <= i < |volumes| && volumes[i].name == name
  }

  function AddEnv(env: seq<EnvVar>, vars: seq<EnvVar>): seq<EnvVar>
    decreases |vars|
  {
    if vars == [] then env
    else AddEnv(if HasEnv(env, vars[0].name) then env else env + [vars[0]], vars[1..])
  }

  function SubPathExpr(cp: ContainerPolicy): string {
    if cp.delivery == BEST_EFFORT then cp.name + "/" + cp.logType
    else "LogPilotPolicy/" + Ref("NAMESPACE") + "/" + Ref("POD_NAME") + "/" + Ref("POD_UID") + "/" + cp.name + "/" + cp.logType
  }

  /** A reference to an environment variable. */
  function Ref(name: string): string {
    "$(" + name + ")"
  }

  function MountFor(cp: ContainerPolicy): Mount {
    Mount(VOLUME, cp.path, SubPathExpr(cp))
  }

  function AddMounts(mounts: seq<Mount>, cps: seq<ContainerPolicy>): seq<Mount>
    decreases |cps|
  {
    if cps == [] then mounts
    else AddMounts(if cps[0].path == STDOUT || HasMount(mounts, cps[0].path) then mounts else mounts + [MountFor(cps[0])],
                   cps[1..])
  }

  /** The container policies of all matching policies, in order. */
  function Collect(labels: Labels, policies: seq<Policy>): seq<ContainerPolicy> {
    if policies == [] then []
    else (if policies[0].matches(labels) then policies[0].containers else []) + Collect(labels, policies[1..])
  }

  function Named(cps: seq<ContainerPolicy>, name: string): seq<ContainerPolicy> {
    if cps == [] then [] else (if cps[0].name == name then [cps[0]] else []) + Named(cps[1..], name)
  }

  function InjectContainer(c: Container, cps: seq<ContainerPolicy>): Container {
    var mine := Named(cps, c.name);
    if mine == [] then c else c.(env := AddEnv(c.env, DOWNWARD), mounts := AddMounts(c.mounts, mine))
  }

  predicate AllBestEffort(cps: seq<ContainerPolicy>) {
    forall i :: 0 <= i < |cps| ==> cps[i].delivery == BEST_EFFORT
  }

  function AddVolume(volumes: seq<Volume>, cps: seq<ContainerPolicy>): seq<Volume> {
    if HasVolume(volumes, VOLUME) then volumes
    else volumes + [Volume(VOLUME, if AllBestEffort(cps) then EmptyDir else HostPath(HOST_PATH))]
  }

  function InjectContainers(cs: seq<Container>, cps: seq<ContainerPolicy>): (r: seq<Container>)
    ensures |r| == |cs|
    ensures forall i :: 0 <= i < |cs| ==> r[i] == InjectContainer(cs[i], cps)
  {
    if cs == [] then [] else [InjectContainer(cs[0], cps)] + InjectContainers(cs[1..], cps)
  }

  /** The mutated pod, and whether encoding the annotation succeeded. */
  function Inject(p: PodSpec, policies: seq<Policy>, marshal: seq<ContainerPolicy> -> Option<string>): (PodSpec, bool) {
    var cps := Collect(p.labels, policies);
    if cps == [] then (p, true)
    else
      var p1 := p.(containers := InjectContainers(p.containers, cps), volumes := AddVolume(p.volumes, cps));
      match marshal(cps)
      case None => (p1, false)
      case Some(raw) => (p1.(annotations := p.annotations[ANNOTATION := raw]), true)
  }

  // ---------------------------------------------------------------- mounts and variables

  lemma HasMountMore(mounts: seq<Mount>, m: Mount, path: string)
    ensures HasMount(mounts + [m], path) <==> HasMount(mounts, path) || m.path == path
  {
    if HasMount(mounts, path) {
      var i :| 0 <= i < |mounts| && mounts[i].path == path;
      assert (mounts + [m])[i].path == path;
    }
    if m.path == path {
      assert (mounts + [m])[|mounts|].path == path;
    }
  }

  lemma HasEnvMore(env: seq<EnvVar>, e: EnvVar, name: string)
    ensures HasEnv(env + [e], name) <==> HasEnv(env, name) || e.name == name
  {
    if HasEnv(env, name) {
      var i :| 0 <= i < |env| && env[i].name == name;
      assert (env + [e])[i].name == name;
    }
    if e.name == name {
      assert (env + [e])[|env|].name == name;
    }
  }

  /** `more` extends `mounts` by log mounts, each for a path that was not mounted before it. */
  ghost predicate Extends(mounts: seq<Mount>, more: seq<Mount>, cps: seq<ContainerPolicy>) {
    && mounts <= more
    && (forall k :: |mounts| <= k < |more| ==> !HasMount(more[..k], more[k].path) && IsFor(more[k], cps))
  }

  ghost predicate IsFor(m: Mount, cps: seq<ContainerPolicy>) {
    exists cp :: cp in cps && cp.path != STDOUT && m == MountFor(cp)
  }

  lemma {:induction false} AddMountsExtends(mounts: seq<Mount>, cps: seq<ContainerPolicy>, all: seq<ContainerPolicy>)
    requires forall cp :: cp in cps ==> cp in all
    ensures Extends(mounts, AddMounts(mounts, cps), all)
    decreases |cps|
  {
    hide HasMount, MountFor;
    if cps != [] {
      var first := cps[0];
      if first.path == STDOUT || HasMount(mounts, first.path) {
        AddMountsExtends(mounts, cps[1..], all);
      } else {
        var m := MountFor(first);
        MountForPath(first);
        AddMountsExtends(mounts + [m], cps[1..], all);
        var more := AddMounts(mounts + [m], cps[1..]);
        assert more[..|mounts|] == mounts && more[|mounts|] == m;
        assert IsFor(m, all);
      }
    }
  }

  lemma MountForPath(cp: ContainerPolicy)
    ensures MountFor(cp).path == cp.path && MountFor(cp).volume == VOLUME
  {
  }

  ghost predicate Mounted(mounts: seq<Mount>, cps: seq<ContainerPolicy>) {
    forall i :: 0 <= i < |cps| ==> cps[i].path == STDOUT || HasMount(mounts, cps[i].path)
  }

  lemma {:induction false} AddMountsKeeps(mounts: seq<Mount>, cps: seq<ContainerPolicy>, path: string)
    requires HasMount(mounts, path)
    ensures HasMount(AddMounts(mounts, cps), path)
    decreases |cps|
  {
    hide HasMount, MountFor;
    if cps != [] {
      HasMountMore(mounts, MountFor(cps[0]), path);
      AddMountsKeeps(if cps[0].path == STDOUT || HasMount(mounts, cps[0].path) then mounts else mounts + [MountFor(cps[0])],
                     cps[1..], path);
    }
  }

  lemma {:induction false} AddMountsCovers(mounts: seq<Mount>, cps: seq<ContainerPolicy>)
    ensures Mounted(AddMounts(mounts, cps), cps)
    decreases |cps|
  {
    hide HasMount, MountFor;
    if cps != [] {
      var first := cps[0];
      var next := if first.path == STDOUT || HasMount(mounts, first.path) then mounts else mounts + [MountFor(first)];
      MountForPath(first);
      HasMountMore(mounts, MountFor(first), first.path);
      AddMountsCovers(next, cps[1..]);
      if first.path != STDOUT {
        AddMountsKeeps(next, cps[1..], first.path);
      }
      forall i | 0 <= i < |cps| ensures cps[i].path == STDOUT || HasMount(AddMounts(mounts, cps), cps[i].path) {
        if i > 0 {
          assert cps[1..][i - 1] == cps[i];
        }
      }
    }
  }

  lemma {:induction false} AddMountsIdle(mounts: seq<Mount>, cps: seq<ContainerPolicy>)
    requires Mounted(mounts, cps)
    ensures AddMounts(mounts, cps) == mounts
    decreases |cps|
  {
    hide HasMount;
    if cps != [] {
      assert forall i :: 0 <= i < |cps[1..]| ==> cps[1..][i] == cps[i + 1];
      AddMountsIdle(mounts, cps[1..]);
    }
  }

  ghost predicate HasAll(env: seq<EnvVar>, vars: seq<EnvVar>) {
    forall i :: 0 <= i < |vars| ==> HasEnv(env, vars[i].name)
  }

  lemma {:induction false} AddEnvFacts(env: seq<EnvVar>, vars: seq<EnvVar>)
    ensures var more := AddEnv(env, vars);
            && env <= more && HasAll(more, vars)
            && (forall k :: |env| <= k < |more| ==> !HasEnv(more[..k], more[k].name))
            && (forall n :: HasEnv(env, n) ==> HasEnv(more, n))
    decreases |vars|
  {
    hide HasEnv;
    if vars != [] {
      var e := vars[0];
      var next := if HasEnv(env, e.name) then env else env + [e];
      AddEnvFacts(next, vars[1..]);
      forall n ensures HasEnv(env + [e], n) <==> HasEnv(env, n) || e.name == n {
        HasEnvMore(env, e, n);
      }
      var more := AddEnv(next, vars[1..]);
      assert forall i :: 1 <= i < |vars| ==> vars[1..][i - 1] == vars[i];
      if next != env {
        assert more[..|env|] == env && more[|env|] == e;
      }
    }
  }

  lemma {:induction false} AddEnvIdle(env: seq<EnvVar>, vars: seq<EnvVar>)
    requires HasAll(env, vars)
    ensures AddEnv(env, vars) == env
    decreases |vars|
  {
    hide HasEnv;
    if vars != [] {
      assert forall i :: 0 <= i < |vars[1..]| ==> vars[1..][i] == vars[i + 1];
      AddEnvIdle(env, vars[1..]);
    }
  }

  // ---------------------------------------------------------------- which policies, in which order

  lemma {:induction false} CollectConcat(labels: Labels, a: seq<Policy>, b: seq<Policy>)
    ensures Collect(labels, a + b) == Collect(labels, a) + Collect(labels, b)
    decreases |a|
  {
    if a == [] {
      assert a + b == b;
    } else {
      assert (a + b)[1..] == a[1..] + b;
      CollectConcat(labels, a[1..], b);
      Assoc(if a[0].matches(labels) then a[0].containers else [], Collect(labels, a[1..]), Collect(labels, b));
    }
  }

  /** Each matching policy contributes its container policies at its place, each other nothing. */
  lemma {:induction false} CollectExact(labels: Labels, before: seq<Policy>, p: Policy, behind: seq<Policy>)
    ensures Collect(labels, before + [p] + behind)
         == Collect(labels, before) + (if p.matches(labels) then p.containers else []) + Collect(labels, behind)
  {
    CollectConcat(labels, before + [p], behind);
    CollectConcat(labels, before, [p]);
    assert Collect(labels, [p]) == (if p.matches(labels) then p.containers else []) + [];
  }

  lemma {:induction false} NamedConcat(a: seq<ContainerPolicy>, b: seq<ContainerPolicy>, name: string)
    ensures Named(a + b, name) == Named(a, name) + Named(b, name)
    decreases |a|
  {
    if a == [] {
      assert a + b == b;
    } else {
      assert (a + b)[1..] == a[1..] + b;
      NamedConcat(a[1..], b, name);
      Assoc(if a[0].name == name then [a[0]] else [], Named(a[1..], name), Named(b, name));
    }
  }

  /** Each container policy with the name is kept at its place, each other left out. */
  lemma {:induction false} NamedExact(before: seq<ContainerPolicy>, cp: ContainerPolicy, behind: seq<ContainerPolicy>,
                                      name: string)
    ensures Named(before + [cp] + behind, name)
         == Named(before, name) + (if cp.name == name then [cp] else []) + Named(behind, name)
  {
    NamedConcat(before + [cp], behind, name);
    NamedConcat(before, [cp], name);
    assert Named([cp], name) == (if cp.name == name then [cp] else []) + [];
  }

  // ---------------------------------------------------------------- idempotence and conservation

  lemma ContainerIdempotent(c: Container, cps: seq<ContainerPolicy>)
    ensures InjectContainer(InjectContainer(c, cps), cps) == InjectContainer(c, cps)
  {
    hide AddEnv, AddMounts, Named, DOWNWARD;
    var mine := Named(cps, c.name);
    AddEnvFacts(c.env, DOWNWARD);
    AddEnvIdle(AddEnv(c.env, DOWNWARD), DOWNWARD);
    AddMountsCovers(c.mounts, mine);
    AddMountsIdle(AddMounts(c.mounts, mine), mine);
  }

  /** Injecting twice is injecting once. */
  lemma {:induction false} InjectIdempotent(p: PodSpec, policies: seq<Policy>, marshal: seq<ContainerPolicy> -> Option<string>)
    ensures var (p1, ok) := Inject(p, policies, marshal);
            Inject(p1, policies, marshal) == (p1, ok)
  {
    hide InjectContainer;
    var cps := Collect(p.labels, policies);
    if cps != [] {
      var p1 := Inject(p, policies, marshal).0;
      VolumeDeclared(p.volumes, cps);
      var twice := InjectContainers(p1.containers, cps);
      forall i | 0 <= i < |p.containers| ensures twice[i] == p1.containers[i] {
        ContainerIdempotent(p.containers[i], cps);
      }
      assert twice == p1.containers;
      if marshal(cps).Some? {
        assert p1.annotations[ANNOTATION := marshal(cps).value] == p1.annotations;
      }
    }
  }

  lemma VolumeDeclared(volumes: seq<Volume>, cps: seq<ContainerPolicy>)
    ensures volumes <= AddVolume(volumes, cps) && HasVolume(AddVolume(volumes, cps), VOLUME)
    ensures |AddVolume(volumes, cps)| <= |volumes| + 1
  {
    var more := AddVolume(volumes, cps);
    if !HasVolume(volumes, VOLUME) {
      assert more[|volumes|].name == VOLUME;
    }
  }

  /** Injection only appends to a container: existing variables and mounts stay as prefixes; what
      is added never repeats a name or a mount path and uses the log volume; every path of a
      policy for the container is mounted; and a container without a policy is left alone. */
  lemma {:induction false} ContainerConserves(c: Container, cps: seq<ContainerPolicy>)
    ensures var c', mine := InjectContainer(c, cps), Named(cps, c.name);
            && c'.name == c.name && (mine == [] ==> c' == c)
            && c.env <= c'.env && (mine != [] ==> HasAll(c'.env, DOWNWARD))
            && (forall k :: |c.env| <= k < |c'.env| ==> !HasEnv(c'.env[..k], c'.env[k].name))
            && Extends(c.mounts, c'.mounts, mine) && Mounted(c'.mounts, mine)
            && (forall k :: |c.mounts| <= k < |c'.mounts| ==> c'.mounts[k].volume == VOLUME)
  {
    hide AddEnv, AddMounts, DOWNWARD, HasEnv, HasMount, Named;
    var mine := Named(cps, c.name);
    AddEnvFacts(c.env, DOWNWARD);
    AddMountsExtends(c.mounts, mine, mine);
    AddMountsCovers(c.mounts, mine);
  }

  /** A pod that no policy matches is unchanged.  Otherwise each container is injected, existing
      volumes stay as a prefix and the log volume that every added mount names is declared, and
      of the annotations only the policy annotation changes. */
  lemma {:induction false} InjectConserves(p: PodSpec, policies: seq<Policy>, marshal: seq<ContainerPolicy> -> Option<string>)
    ensures var cps, (p', ok) := Collect(p.labels, policies), Inject(p, policies, marshal);
            && p'.labels == p.labels && (cps == [] ==> ok && p' == p)
            && (cps != [] ==>
                  && |p'.containers| == |p.containers|
                  && (forall i :: 0 <= i < |p.containers| ==> p'.containers[i] == InjectContainer(p.containers[i], cps))
                  && p.volumes <= p'.volumes && HasVolume(p'.volumes, VOLUME)
                  && p'.annotations - {ANNOTATION} == p.annotations - {ANNOTATION}
                  && ok == marshal(cps).Some?
                  && (ok ==> ANNOTATION in p'.annotations && p'.annotations[ANNOTATION] == marshal(cps).value))
  {
    hide HasVolume, Collect, AddVolume, InjectContainer;
    VolumeDeclared(p.volumes, Collect(p.labels, policies));
  }

  // ---------------------------------------------------------------- the webhook's code

  method InjectEnvVars(c: Container) returns (c': Container)
    ensures c' == c.(env := AddEnv(c.env, DOWNWARD))
  {
    var existing: set<string> := {};
    for i := 0 to |c.env|
      invariant forall n :: n in existing <==> HasEnv(c.env[..i], n)
    {
      assert c.env[..i + 1] == c.env[..i] + [c.env[i]];
      forall n ensures HasEnv(c.env[..i + 1], n) <==> HasEnv(c.env[..i], n) || c.env[i].name == n {
        HasEnvMore(c.env[..i], c.env[i], n);
      }
      existing := existing + {c.env[i].name};
    }
    assert c.env[..|c.env|] == c.env;
    var env := c.env;
    for i := 0 to |DOWNWARD|
      invariant AddEnv(env, DOWNWARD[i..]) == AddEnv(c.env, DOWNWARD)
      invariant forall k :: i <= k < |DOWNWARD| ==> (DOWNWARD[k].name in existing <==> HasEnv(env, DOWNWARD[k].name))
    {
      hide HasEnv;
      var e := DOWNWARD[i];
      assert DOWNWARD[i..][1..] == DOWNWARD[i + 1..];
      forall n ensures HasEnv(env + [e], n) <==> HasEnv(env, n) || e.name == n {
        HasEnvMore(env, e, n);
      }
      DownwardDistinct(i);
      if e.name !in existing {
        env := env + [e];
      }
    }
    c' := c.(env := env);
  }

  lemma DownwardDistinct(i: nat)
    requires i < |DOWNWARD|
    ensures forall k :: i < k < |DOWNWARD| ==> DOWNWARD[k].name != DOWNWARD[i].name
  {
    assert DOWNWARD[0].name == "POD_NAME" && DOWNWARD[1].name == "NAMESPACE" && DOWNWARD[2].name == "POD_UID";
    assert "POD_NAME"[0] != "NAMESPACE"[0] && "POD_NAME"[4] != "POD_UID"[4] && "NAMESPACE"[0] != "POD_UID"[0];
  }

  method InjectVolumeMounts(c: Container, cps: seq<ContainerPolicy>) returns (c': Container)
    ensures c' == c.(mounts := AddMounts(c.mounts, cps))
  {
    var existing: set<string> := {};
    for i := 0 to |c.mounts|
      invariant forall n :: n in existing <==> HasMount(c.mounts[..i], n)
    {
      assert c.mounts[..i + 1] == c.mounts[..i] + [c.mounts[i]];
      forall n ensures HasMount(c.mounts[..i + 1], n) <==> HasMount(c.mounts[..i], n) || c.mounts[i].path == n {
        HasMountMore(c.mounts[..i], c.mounts[i], n);
      }
      existing := existing + {c.mounts[i].path};
    }
    assert c.mounts[..|c.mounts|] == c.mounts;
    var mounts := c.mounts;
    for i := 0 to |cps|
      invariant AddMounts(mounts, cps[i..]) == AddMounts(c.mounts, cps)
      invariant forall n :: n in existing <==> HasMount(mounts, n)
    {
      hide HasMount;
      var cp := cps[i];
      assert cps[i..][1..] == cps[i + 1..];
      if cp.path == STDOUT || cp.path in existing {
        continue;
      }
      forall n ensures HasMount(mounts + [MountFor(cp)], n) <==> HasMount(mounts, n) || cp.path == n {
        HasMountMore(mounts, MountFor(cp), n);
      }
      mounts := mounts + [MountFor(cp)];
      existing := existing + {cp.path};
    }
    c' := c.(mounts := mounts);
  }

  lemma NamedNext(cps: seq<ContainerPolicy>, i: nat, name: string, mine: seq<ContainerPolicy>)
    requires i < |cps|
    ensures mine + Named(cps[i..], name) ==
            (if cps[i].name == name then mine + [cps[i]] else mine) + Named(cps[i + 1..], name)
  {
    assert cps[i..][1..] == cps[i + 1..];
    Assoc(mine, if cps[i].name == name then [cps[i]] else [], Named(cps[i + 1..], name));
  }

  method MatchedPolicies(cps: seq<ContainerPolicy>, name: string) returns (mine: seq<ContainerPolicy>)
    ensures mine == Named(cps, name)
  {
    mine := [];
    assert cps[0..] == cps;
    for i := 0 to |cps|
      invariant mine + Named(cps[i..], name) == Named(cps, name)
    {
      NamedNext(cps, i, name, mine);
      hide Named;
      if cps[i].name == name {
        mine := mine + [cps[i]];
      }
    }
  }

  lemma CollectNext(labels: Labels, policies: seq<Policy>, i: nat, cps: seq<ContainerPolicy>)
    requires i < |policies|
    ensures cps + Collect(labels, policies[i..]) ==
            (if policies[i].matches(labels) then cps + policies[i].containers else cps) + Collect(labels, policies[i + 1..])
  {
    assert policies[i..][1..] == policies[i + 1..];
    Assoc(cps, if policies[i].matches(labels) then policies[i].containers else [], Collect(labels, policies[i + 1..]));
  }

  class Pod {
    const labels: Labels
    var containers: seq<Container>
    var volumes: seq<Volume>
    var annotations: map<string, string>

    function Spec(): PodSpec
      reads this
    {
      PodSpec(labels, containers, volumes, annotations)
    }

    /** Adds the shared log volume unless the pod has one: a host path if any policy wants
        guaranteed delivery, otherwise an emptyDir. */
    method EnsureLogVolume(cps: seq<ContainerPolicy>)
      modifies `volumes
      ensures volumes == AddVolume(old(volumes), cps)
    {
      for i := 0 to |volumes|
        invariant forall k :: 0 <= k < i ==> volumes[k].name != VOLUME
      {
        if volumes[i].name == VOLUME {
          return;
        }
      }
      for i := 0 to |cps|
        invariant volumes == old(volumes)
        invariant forall k :: 0 <= k < i ==> cps[k].delivery == BEST_EFFORT
      {
        if cps[i].delivery != BEST_EFFORT {
          volumes := volumes + [Volume(VOLUME, HostPath(HOST_PATH))];
          return;
        }
      }
      volumes := volumes + [Volume(VOLUME, EmptyDir)];
    }

    method CollectPolicies(policies: seq<Policy>) returns (cps: seq<ContainerPolicy>)
      ensures cps == Collect(labels, policies)
    {
      cps := [];
      assert policies[0..] == policies;
      for i := 0 to |policies|
        invariant cps + Collect(labels, policies[i..]) == Collect(labels, policies)
      {
        CollectNext(labels, policies, i, cps);
        hide Collect;
        var p := policies[i];
        if p.matches(labels) {
          cps := cps + p.containers;
        }
      }
    }

    method InjectEach(cps: seq<ContainerPolicy>)
      modifies `containers
      ensures containers == InjectContainers(old(containers), cps)
    {
      hide AddEnv, AddMounts, Named, DOWNWARD;
      for i := 0 to |containers|
        invariant |containers| == |old(containers)|
        invariant forall k :: 0 <= k < i ==> containers[k] == InjectContainer(old(containers)[k], cps)
        invariant forall k :: i <= k < |containers| ==> containers[k] == old(containers)[k]
      {
        var mine := MatchedPolicies(cps, containers[i].name);
        if mine == [] {
          continue;
        }
        var c := InjectEnvVars(containers[i]);
        c := InjectVolumeMounts(c, mine);
        containers := containers[i := c];
      }
    }

    /** `injectPod`: false when encoding the annotation fails. */
    method InjectPod(policies: seq<Policy>, marshal: seq<ContainerPolicy> -> Option<string>) returns (ok: bool)
      modifies this
      ensures (Spec(), ok) == Inject(old(Spec()), policies, marshal)
    {
      hide Collect, InjectContainers, AddVolume;
      var cps := CollectPolicies(policies);
      if cps == [] {
        return true;
      }
      InjectEach(cps);
      EnsureLogVolume(cps);
      var raw := marshal(cps);
      if raw.None? {
        return false;
      }
      annotations := annotations[ANNOTATION := raw.value];
      return true;
    }
  }
}
