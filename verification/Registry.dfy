/** The watcher's runner registry: runners for the containers of the pods on this node and for
    the cluster policies whose lease this agent holds, in one map from key to runner. */
module Registry {
  import opened Basics

  type Key = string

  const CLUSTER := "ClusterLogPilotPolicy"

  /** A container policy of a pod's annotation. */
  datatype Policy = Policy(container: string, logType: string)

  /** `policies` is None when the annotation does not parse. */
  datatype Pod = Pod(uid: string, policies: Option<seq<Policy>>)

  /** `known` says whether the input type is one that the agent runs. */
  datatype ClusterPolicy = ClusterPolicy(name: string, known: bool)

  /** `accepted` remembers, for each pod in `seen`, the runner keys of the annotation it was
      accepted with. */
  datatype Reg = Reg(runners: set<Key>, seen: set<string>, accepted: map<string, set<Key>>, clusterSeen: set<Key>)

  const EMPTY := Reg({}, {}, map[], {})

  function RunnerKey(uid: string, container: string, logType: string): Key {
    uid + "/" + container + "/" + logType
  }

  function ClusterKey(name: string): Key {
    CLUSTER + "/" + name
  }

  predicate NoSlash(s: string) {
    forall i :: 0 <= i < |s| ==> s[i] != '/'
  }

  /** `strings.HasPrefix(key, uid + "/")`. */
  predicate BelongsTo(key: Key, uid: string) {
    uid + "/" <= key
  }

  // ---------------------------------------------------------------- keys

  /** The part of a key before its first slash is unique. */
  lemma HeadUnique(a: string, b: string, x: string, y: string)
    requires NoSlash(a) && NoSlash(b) && a + "/" + x == b + "/" + y
    ensures a == b && x == y
  {
    var s := a + "/" + x;
    assert s[|a|] == '/' && s[|b|] == '/';
    assert forall i :: 0 <= i < |a| ==> s[i] == a[i];
    assert forall i :: 0 <= i < |b| ==> s[i] == b[i];
    assert |a| == |b|;
    assert a == s[..|a|] && b == s[..|b|];
    assert x == s[|a| + 1..] && y == s[|b| + 1..];
  }

  lemma KeyInjective(p: Policy, q: Policy, uid: string, uid': string)
    requires NoSlash(uid) && NoSlash(uid') && NoSlash(p.container) && NoSlash(q.container)
    requires RunnerKey(uid, p.container, p.logType) == RunnerKey(uid', q.container, q.logType)
    ensures uid == uid' && p == q
  {
    var x, y := p.container + "/" + p.logType, q.container + "/" + q.logType;
    assert uid + "/" + x == RunnerKey(uid, p.container, p.logType);
    assert uid' + "/" + y == RunnerKey(uid', q.container, q.logType);
    HeadUnique(uid, uid', x, y);
    HeadUnique(p.container, q.container, p.logType, q.logType);
  }

  /** The prefix test is exact. */
  lemma PrefixExact(uid: string, head: string, tail: string)
    requires NoSlash(uid) && NoSlash(head)
    ensures BelongsTo(head + "/" + tail, uid) <==> head == uid
  {
    var key := head + "/" + tail;
    if BelongsTo(key, uid) {
      var rest := key[|uid| + 1..];
      assert key == uid + "/" + rest;
      HeadUnique(uid, head, rest, tail);
    }
  }

  lemma PodKeyPrefix(uid: string, uid': string, c: string, t: string)
    requires NoSlash(uid) && NoSlash(uid')
    ensures BelongsTo(RunnerKey(uid', c, t), uid) <==> uid == uid'
  {
    assert RunnerKey(uid', c, t) == uid' + "/" + (c + "/" + t);
    PrefixExact(uid, uid', c + "/" + t);
  }

  // ---------------------------------------------------------------- pods

  function KeysOf(pod: Pod): set<Key> {
    if pod.policies.None? then {} else
    set i | 0 <= i < |pod.policies.value| ::
      RunnerKey(pod.uid, pod.policies.value[i].container, pod.policies.value[i].logType)
  }

  /** `OnPodAdd` from policy `i` on: which runners exist afterwards, and whether all are ready.
      `ready(i)` says whether the log path and the runner of policy `i` could be made. */
  function AddRunners(runners: set<Key>, pod: Pod, ready: nat -> bool, i: nat): (set<Key>, bool)
    requires pod.policies.Some? && i <= |pod.policies.value|
    decreases |pod.policies.value| - i
  {
    var ps := pod.policies.value;
    if i == |ps| then (runners, true)
    else
      var key := RunnerKey(pod.uid, ps[i].container, ps[i].logType);
      if key in runners then AddRunners(runners, pod, ready, i + 1)
      else if ready(i) then AddRunners(runners + {key}, pod, ready, i + 1)
      else (AddRunners(runners, pod, ready, i + 1).0, false)
  }

  function OnPodAdd(runners: set<Key>, pod: Pod, ready: nat -> bool): (set<Key>, bool) {
    if pod.policies.None? then (runners, true) else AddRunners(runners, pod, ready, 0)
  }

  /** An Added or Modified event, or a listed pod: only a pod not yet accepted is looked at. */
  function SeePod(r: Reg, pod: Pod, ready: nat -> bool): Reg {
    if pod.uid in r.seen then r
    else
      var (runners, ok) := OnPodAdd(r.runners, pod, ready);
      if ok then r.(runners := runners, seen := r.seen + {pod.uid}, accepted := r.accepted[pod.uid := KeysOf(pod)])
      else r.(runners := runners)
  }

  function DropPods(r: Reg, gone: set<string>): Reg {
    r.(runners := (set k | k in r.runners && !exists u :: u in gone && BelongsTo(k, u)),
       seen := r.seen - gone, accepted := r.accepted - gone)
  }

  function SeePods(r: Reg, pods: seq<Pod>, ready: nat -> nat -> bool, i: nat): Reg
    requires i <= |pods|
    decreases |pods| - i
  {
    if i == |pods| then r else SeePods(SeePod(r, pods[i], ready(i)), pods, ready, i + 1)
  }

  function Uids(pods: seq<Pod>): set<string> {
    set i | 0 <= i < |pods| :: pods[i].uid
  }

  /** `syncPods` after a successful list. */
  function Resync(r: Reg, pods: seq<Pod>, ready: nat -> nat -> bool): Reg {
    var r1 := SeePods(r, pods, ready, 0);
    DropPods(r1, r1.seen - Uids(pods))
  }

  // ---------------------------------------------------------------- cluster policies

  /** One listed policy: `held` is the result of its lease acquisition, `builds` whether its
      runner could be built. */
  function SeeCluster(r: Reg, p: ClusterPolicy, held: bool, builds: bool): Reg {
    var key := ClusterKey(p.name);
    if !held then
      if key in r.clusterSeen then r.(runners := r.runners - {key}, clusterSeen := r.clusterSeen - {key}) else r
    else if key in r.clusterSeen then r
    else if !p.known || key in r.runners then r.(clusterSeen := r.clusterSeen + {key})
    else if builds then r.(runners := r.runners + {key}, clusterSeen := r.clusterSeen + {key})
    else r
  }

  /** The lease results and build results of one pass, by position in the list. */
  datatype Pass = Pass(listed: seq<ClusterPolicy>, held: nat -> bool, builds: nat -> bool)

  function SeeClusters(r: Reg, p: Pass, i: nat): Reg
    requires i <= |p.listed|
  {
    if i == 0 then r
    else SeeCluster(SeeClusters(r, p, i - 1), p.listed[i - 1], p.held(i - 1), p.builds(i - 1))
  }

  function ListedKeys(p: Pass): set<Key> {
    set i | 0 <= i < |p.listed| :: ClusterKey(p.listed[i].name)
  }

  /** `reconcileClusterPolicies` after a successful list. */
  function ClusterPass(r: Reg, p: Pass): Reg {
    var r1 := SeeClusters(r, p, |p.listed|);
    var gone := r1.clusterSeen - ListedKeys(p);
    r1.(runners := r1.runners - gone, clusterSeen := r1.clusterSeen - gone)
  }

  // ---------------------------------------------------------------- runs

  datatype Step =
    | PodEvent(pod: Pod, ready: nat -> bool)
    | PodDeleted(uid: string)
    | PodResync(pods: seq<Pod>, readyAt: nat -> nat -> bool)
    | Cluster(pass: Pass)

  function Next(r: Reg, s: Step): Reg {
    match s
    case PodEvent(pod, ready) => SeePod(r, pod, ready)
    case PodDeleted(uid) => DropPods(r, {uid})
    case PodResync(pods, readyAt) => Resync(r, pods, readyAt)
    case Cluster(pass) => ClusterPass(r, pass)
  }

  function RunFrom(r: Reg, steps: seq<Step>): Reg {
    if steps == [] then r else Next(RunFrom(r, steps[..|steps| - 1]), steps[|steps| - 1])
  }

  function Exec(steps: seq<Step>): Reg {
    RunFrom(EMPTY, steps)
  }

  ghost predicate GoodUid(uid: string) {
    NoSlash(uid) && uid != CLUSTER
  }

  ghost predicate GoodStep(s: Step) {
    match s
    case PodEvent(pod, _) => GoodUid(pod.uid)
    case PodDeleted(uid) => GoodUid(uid)
    case PodResync(pods, _) => forall i :: 0 <= i < |pods| ==> GoodUid(pods[i].uid)
    case Cluster(_) => true
  }

  // ---------------------------------------------------------------- the invariant

  ghost predicate IsClusterKey(k: Key) {
    BelongsTo(k, CLUSTER)
  }

  /** Every accepted pod has all its runners; cluster runners are among the cluster policies
      seen; the keys in `accepted` belong to their pods. */
  ghost predicate Inv(r: Reg) {
    && r.accepted.Keys == r.seen
    && (forall u :: u in r.seen ==> GoodUid(u) && r.accepted[u] <= r.runners)
    && (forall u, k :: u in r.seen && k in r.accepted[u] ==> Head(k, u))
    && (forall k :: k in r.runners && IsClusterKey(k) ==> k in r.clusterSeen)
    && (forall k :: k in r.clusterSeen ==> Head(k, CLUSTER))
  }

  /** `k` is `u`, a slash, and more. */
  ghost predicate Head(k: Key, u: string) {
    exists x: string :: k == u + "/" + x
  }

  lemma HeadBelongs(k: Key, u: string, v: string)
    requires Head(k, u) && NoSlash(u) && NoSlash(v)
    ensures BelongsTo(k, v) <==> u == v
  {
    var x: string :| k == u + "/" + x;
    PrefixExact(v, u, x);
  }

  lemma {:induction false} AddRunnersFacts(runners: set<Key>, pod: Pod, ready: nat -> bool, i: nat)
    requires pod.policies.Some? && i <= |pod.policies.value|
    ensures var (runners', ok) := AddRunners(runners, pod, ready, i);
            var ps := pod.policies.value;
            && runners <= runners'
            && (forall k :: k in runners' - runners ==> Head(k, pod.uid))
            && (ok ==> forall j :: i <= j < |ps| ==> RunnerKey(pod.uid, ps[j].container, ps[j].logType) in runners')
    decreases |pod.policies.value| - i
  {
    var ps := pod.policies.value;
    if i < |ps| {
      var key := RunnerKey(pod.uid, ps[i].container, ps[i].logType);
      RunnerKeyHead(pod.uid, ps[i]);
      hide RunnerKey, Head;
      AddRunnersFacts(if key !in runners && ready(i) then runners + {key} else runners, pod, ready, i + 1);
    }
  }

  lemma RunnerKeyHead(uid: string, p: Policy)
    ensures Head(RunnerKey(uid, p.container, p.logType), uid)
  {
    assert RunnerKey(uid, p.container, p.logType) == uid + "/" + (p.container + "/" + p.logType);
  }

  lemma SeePodKeeps(r: Reg, pod: Pod, ready: nat -> bool)
    requires Inv(r) && GoodUid(pod.uid)
    ensures Inv(SeePod(r, pod, ready)) && r.seen <= SeePod(r, pod, ready).seen
  {
    if pod.uid !in r.seen {
      var r' := SeePod(r, pod, ready);
      if pod.policies.Some? {
        AddRunnersFacts(r.runners, pod, ready, 0);
      }
      forall k | k in r'.runners - r.runners ensures !IsClusterKey(k) {
        HeadBelongs(k, pod.uid, CLUSTER);
      }
      forall k | k in KeysOf(pod) ensures Head(k, pod.uid) {
        var i :| 0 <= i < |pod.policies.value| &&
                 k == RunnerKey(pod.uid, pod.policies.value[i].container, pod.policies.value[i].logType);
        RunnerKeyHead(pod.uid, pod.policies.value[i]);
      }
    }
  }

  lemma DropKeeps(r: Reg, gone: set<string>)
    requires Inv(r) && forall u :: u in gone ==> GoodUid(u)
    ensures Inv(DropPods(r, gone))
  {
    var r' := DropPods(r, gone);
    forall u, k | u in r'.seen && k in r'.accepted[u] ensures k in r'.runners {
      forall v | v in gone ensures !BelongsTo(k, v) {
        HeadBelongs(k, u, v);
      }
    }
  }

  lemma {:induction false} SeePodsKeeps(r: Reg, pods: seq<Pod>, ready: nat -> nat -> bool, i: nat)
    requires Inv(r) && i <= |pods| && forall j :: 0 <= j < |pods| ==> GoodUid(pods[j].uid)
    ensures Inv(SeePods(r, pods, ready, i))
    decreases |pods| - i
  {
    hide Inv, SeePod, GoodUid;
    if i < |pods| {
      SeePodKeeps(r, pods[i], ready(i));
      SeePodsKeeps(SeePod(r, pods[i], ready(i)), pods, ready, i + 1);
    }
  }

  lemma SeeClusterKeeps(r: Reg, p: ClusterPolicy, held: bool, builds: bool)
    requires Inv(r)
    ensures Inv(SeeCluster(r, p, held, builds))
  {
    var key := ClusterKey(p.name);
    assert Head(key, CLUSTER);
    forall u, k | u in r.seen && k in r.accepted[u] ensures k != key {
      HeadBelongs(k, u, CLUSTER);
    }
  }

  lemma {:induction false} SeeClustersKeeps(r: Reg, p: Pass, i: nat)
    requires Inv(r) && i <= |p.listed|
    ensures Inv(SeeClusters(r, p, i))
  {
    hide Inv, SeeCluster;
    if i > 0 {
      SeeClustersKeeps(r, p, i - 1);
      SeeClusterKeeps(SeeClusters(r, p, i - 1), p.listed[i - 1], p.held(i - 1), p.builds(i - 1));
    }
  }

  lemma ClusterPassKeeps(r: Reg, p: Pass)
    requires Inv(r)
    ensures Inv(ClusterPass(r, p))
  {
    SeeClustersKeeps(r, p, |p.listed|);
    var r1 := SeeClusters(r, p, |p.listed|);
    hide SeeClusters, ListedKeys;
    var gone := r1.clusterSeen - ListedKeys(p);
    forall u, k | u in r1.seen && k in r1.accepted[u] ensures k !in gone {
      HeadBelongs(k, u, CLUSTER);
      if k in r1.clusterSeen {
        HeadBelongs(k, CLUSTER, CLUSTER);
      }
    }
  }

  lemma NextKeeps(r: Reg, s: Step)
    requires Inv(r) && GoodStep(s)
    ensures Inv(Next(r, s))
  {
    hide SeePod, SeePods, ClusterPass, DropPods;
    match s
    case PodEvent(pod, ready) => SeePodKeeps(r, pod, ready);
    case PodDeleted(uid) => DropKeeps(r, {uid});
    case PodResync(pods, readyAt) =>
      SeePodsKeeps(r, pods, readyAt, 0);
      var r1 := SeePods(r, pods, readyAt, 0);
      DropKeeps(r1, r1.seen - Uids(pods));
    case Cluster(pass) => ClusterPassKeeps(r, pass);
  }

  /** Over every sequence of pod events, resyncs and cluster passes: each accepted pod has a
      runner for every container policy it was accepted with, and registered cluster runners are
      among the cluster policies seen. */
  lemma {:induction false} RegistryTheorem(steps: seq<Step>)
    requires forall i :: 0 <= i < |steps| ==> GoodStep(steps[i])
    ensures Inv(Exec(steps))
    decreases |steps|
  {
    hide GoodStep, Next;
    if steps != [] {
      RegistryTheorem(steps[..|steps| - 1]);
      NextKeeps(Exec(steps[..|steps| - 1]), steps[|steps| - 1]);
    }
  }

  /** Deleting a pod removes exactly that pod's runners. */
  lemma DeleteExact(r: Reg, uid: string, uid': string, p: Policy)
    requires NoSlash(uid) && NoSlash(uid')
    ensures var k := RunnerKey(uid', p.container, p.logType);
            k in Next(r, PodDeleted(uid)).runners <==> k in r.runners && uid' != uid
  {
    PodKeyPrefix(uid, uid', p.container, p.logType);
  }

  // ---------------------------------------------------------------- what a cluster pass leaves

  /** The last lease result for `key` among the first `i` listed policies was true. */
  ghost predicate HeldLast(p: Pass, key: Key, i: nat)
    requires i <= |p.listed|
  {
    exists j :: 0 <= j < i && ClusterKey(p.listed[j].name) == key && p.held(j)
                && forall k :: j < k < i ==> ClusterKey(p.listed[k].name) != key || p.held(k)
  }

  lemma {:induction false} SeenIsHeld(r: Reg, p: Pass, i: nat, key: Key)
    requires i <= |p.listed| && key in SeeClusters(r, p, i).clusterSeen
    ensures HeldLast(p, key, i)
            || (key in r.clusterSeen && forall k :: 0 <= k < i ==> ClusterKey(p.listed[k].name) != key)
    decreases i
  {
    hide ClusterKey;
    if i > 0 {
      var r1 := SeeClusters(r, p, i - 1);
      var here := ClusterKey(p.listed[i - 1].name);
      if here != key {
        SeenIsHeld(r, p, i - 1, key);
      } else if key in r1.clusterSeen {
        SeenIsHeld(r, p, i - 1, key);
        assert p.held(i - 1);
      }
    }
  }

  /** After a pass every registered cluster runner belongs to a listed policy whose lease this
      agent acquired in that very pass. */
  lemma ClusterRunnersHeld(r: Reg, p: Pass, key: Key)
    requires Inv(r) && IsClusterKey(key) && key in ClusterPass(r, p).runners
    ensures HeldLast(p, key, |p.listed|)
  {
    ClusterPassKeeps(r, p);
    hide ClusterKey, SeeClusters;
    SeenIsHeld(r, p, |p.listed|, key);
  }

  /** Steps for other policies leave a policy's entries alone. */
  lemma {:induction false} OthersLeave(r: Reg, p: Pass, i: nat, j: nat, key: Key)
    requires i <= j <= |p.listed|
    requires forall k :: i <= k < j ==> ClusterKey(p.listed[k].name) != key
    ensures var a, b := SeeClusters(r, p, i), SeeClusters(r, p, j);
            (key in b.clusterSeen <==> key in a.clusterSeen) && (key in b.runners <==> key in a.runners)
    decreases j
  {
    hide ClusterKey;
    if i < j {
      OthersLeave(r, p, i, j - 1, key);
    }
  }

  /** With distinct policy names the outcome for each listed policy is exact: it runs after the
      pass if and only if its lease was acquired and either it ran before, or it was not seen
      before, has a known type and could be built; it counts as seen also with an unknown type. */
  lemma ClusterPassExact(r: Reg, p: Pass, n: nat)
    requires Inv(r) && n < |p.listed| && Distinct(p)
    ensures var key, c := ClusterKey(p.listed[n].name), p.listed[n];
            && (key in ClusterPass(r, p).runners <==>
                  p.held(n) && (key in r.runners || (key !in r.clusterSeen && c.known && p.builds(n))))
            && (key in ClusterPass(r, p).clusterSeen <==>
                  p.held(n) && (key in r.clusterSeen || !c.known || p.builds(n)))
  {
    var key := ClusterKey(p.listed[n].name);
    assert Head(key, CLUSTER);
    HeadBelongs(key, CLUSTER, CLUSTER);
    forall k | 0 <= k < |p.listed| && k != n ensures ClusterKey(p.listed[k].name) != key {
      ClusterKeyInjective(p.listed[k].name, p.listed[n].name);
    }
    assert key in ListedKeys(p);
    hide ClusterKey, Head, IsClusterKey;
    OthersLeave(r, p, 0, n, key);
    OthersLeave(r, p, n + 1, |p.listed|, key);
  }

  ghost predicate Distinct(p: Pass) {
    forall i, j :: 0 <= i < j < |p.listed| ==> p.listed[i].name != p.listed[j].name
  }

  lemma ClusterKeyInjective(a: string, b: string)
    ensures ClusterKey(a) == ClusterKey(b) ==> a == b
  {
    if ClusterKey(a) == ClusterKey(b) {
      HeadUnique(CLUSTER, CLUSTER, a, b);
    }
  }

  // ---------------------------------------------------------------- a cluster policy over a whole run

  function IndexOf(listed: seq<ClusterPolicy>, name: string): (n: nat)
    ensures n <= |listed| && (n < |listed| ==> listed[n].name == name)
    ensures forall i :: 0 <= i < n ==> listed[i].name != name
  {
    if listed == [] || listed[0].name == name then 0 else 1 + IndexOf(listed[1..], name)
  }

  /** What a step says about one cluster policy: nothing; that it is not listed or its lease not
      held; or that its lease is held. */
  datatype Sight = Silent | Away | Held(known: bool, builds: bool)

  function SightOf(s: Step, name: string): Sight {
    if !s.Cluster? then Silent
    else
      var n := IndexOf(s.pass.listed, name);
      if n == |s.pass.listed| || !s.pass.held(n) then Away else Held(s.pass.listed[n].known, s.pass.builds(n))
  }

  /** A pass that settles whether a policy not seen before runs. */
  predicate Decides(s: Step, name: string) {
    var x := SightOf(s, name);
    x.Held? && (!x.known || x.builds)
  }

  ghost predicate TidyStep(s: Step) {
    GoodStep(s) && (s.Cluster? ==> Distinct(s.pass))
  }

  /** One step, seen from one cluster policy. */
  lemma StepExact(r: Reg, s: Step, name: string)
    requires Inv(r) && TidyStep(s)
    ensures var r', key, x := Next(r, s), ClusterKey(name), SightOf(s, name);
            && (key in r'.clusterSeen <==> match x
                  case Silent => key in r.clusterSeen
                  case Away => false
                  case Held(_, _) => key in r.clusterSeen || Decides(s, name))
            && (key in r'.runners <==> match x
                  case Silent => key in r.runners
                  case Away => false
                  case Held(known, _) => key in r.runners || (key !in r.clusterSeen && Decides(s, name) && known))
  {
    var key := ClusterKey(name);
    assert Head(key, CLUSTER);
    HeadBelongs(key, CLUSTER, CLUSTER);
    if s.Cluster? {
      NextKeeps(r, s);
      hide Inv;
      var n := IndexOf(s.pass.listed, name);
      if n < |s.pass.listed| {
        ClusterPassExact(r, s.pass, n);
        RunningIsSeen(r, key);
        hide ClusterKey, Head, IsClusterKey, ClusterPass, Distinct;
      } else {
        NotListed(r, s.pass, name);
      }
    } else {
      PodStepLeaves(r, s, key, CLUSTER);
    }
  }

  lemma RunningIsSeen(r: Reg, key: Key)
    requires Inv(r) && IsClusterKey(key)
    ensures key in r.runners ==> key in r.clusterSeen
  {
  }

  lemma NotListed(r: Reg, p: Pass, name: string)
    requires Inv(r) && IndexOf(p.listed, name) == |p.listed|
    ensures ClusterKey(name) !in ClusterPass(r, p).clusterSeen && ClusterKey(name) !in ClusterPass(r, p).runners
  {
    var key := ClusterKey(name);
    assert Head(key, CLUSTER);
    HeadBelongs(key, CLUSTER, CLUSTER);
    forall k | 0 <= k < |p.listed| ensures ClusterKey(p.listed[k].name) != key {
      ClusterKeyInjective(p.listed[k].name, name);
    }
    ClusterPassKeeps(r, p);
    hide ClusterKey, SeeClusters;
    assert key !in ListedKeys(p);
  }

  /** The last time the policy was away, or the beginning: the number of steps up to then. */
  ghost function Since(steps: seq<Step>, name: string): (d: nat)
    ensures d <= |steps| && (d > 0 ==> SightOf(steps[d - 1], name).Away?)
    ensures forall i :: d <= i < |steps| ==> !SightOf(steps[i], name).Away?
  {
    if steps == [] then 0
    else
      var n := |steps| - 1;
      if SightOf(steps[n], name).Away? then n + 1 else Since(steps[..n], name)
  }

  /** Step `j` is the first since then to settle whether the policy runs. */
  ghost predicate FirstDecision(steps: seq<Step>, name: string, j: nat) {
    && Since(steps, name) <= j < |steps| && Decides(steps[j], name)
    && forall i :: Since(steps, name) <= i < j ==> !Decides(steps[i], name)
  }

  lemma {:induction false} LeastDecision(steps: seq<Step>, name: string, lo: nat, j: nat)
    requires Since(steps, name) <= lo <= j < |steps| && Decides(steps[j], name)
    requires forall i :: Since(steps, name) <= i < lo ==> !Decides(steps[i], name)
    ensures exists k: nat :: FirstDecision(steps, name, k)
    decreases j - lo
  {
    hide Decides, Since;
    if Decides(steps[lo], name) {
      assert FirstDecision(steps, name, lo);
    } else {
      LeastDecision(steps, name, lo + 1, j);
    }
  }

  lemma DecisionSnoc(steps: seq<Step>, name: string, j: nat)
    requires steps != [] && !SightOf(steps[|steps| - 1], name).Away? && j < |steps| - 1
    ensures FirstDecision(steps, name, j) <==> FirstDecision(steps[..|steps| - 1], name, j)
  {
    hide Decides, SightOf;
  }

  lemma DecisionOnce(steps: seq<Step>, name: string, i: nat, j: nat)
    requires FirstDecision(steps, name, i) && FirstDecision(steps, name, j)
    ensures i == j
  {
    hide Decides, SightOf, Since;
  }

  /** Over every run: a cluster policy has a runner if and only if, of the passes since it was
      last unlisted or its lease not held, the first that found an unknown type or could build the
      runner found a known type.  So a policy first seen with an unknown type is not started while
      it stays listed and its lease held, and a later pass starts it only after it was dropped. */
  lemma {:induction false} ClusterRunExact(steps: seq<Step>, name: string)
    requires forall i :: 0 <= i < |steps| ==> TidyStep(steps[i])
    ensures var r, key := Exec(steps), ClusterKey(name);
            && Inv(r)
            && (key in r.clusterSeen <==> exists j: nat :: FirstDecision(steps, name, j))
            && (key in r.runners <==> exists j: nat :: FirstDecision(steps, name, j) && SightOf(steps[j], name).known)
    decreases |steps|
  {
    hide TidyStep, Inv, Next, FirstDecision, Decides, SightOf, Since, ClusterKey;
    if steps == [] {
      NothingDecided(name);
    } else {
      var n := |steps| - 1;
      var before, r := steps[..n], Exec(steps[..n]);
      ClusterRunExact(before, name);
      StepExact(r, steps[n], name);
      TidyKeeps(r, steps[n]);
      LastStep(steps, name);
    }
  }

  /** A policy settled with an unknown type has no runner whatever passes follow with its lease
      held, and the first pass that sees it with a known type after it was dropped starts it. */
  lemma {:induction false} DroppedThenStarted(steps: seq<Step>, name: string, j: nat, away: Step, again: Step)
    requires forall i :: 0 <= i < |steps| ==> TidyStep(steps[i])
    requires FirstDecision(steps, name, j) && !SightOf(steps[j], name).known
    requires TidyStep(away) && SightOf(away, name).Away?
    requires TidyStep(again) && SightOf(again, name) == Held(true, true)
    ensures ClusterKey(name) !in Exec(steps).runners
    ensures ClusterKey(name) !in Exec(steps + [again]).runners
    ensures ClusterKey(name) in Exec(steps + [away] + [again]).runners
  {
    hide TidyStep, FirstDecision, SightOf, ClusterKey, Inv, Next;
    ClusterRunExact(steps, name);
    forall i: nat | FirstDecision(steps, name, i) ensures i == j {
      DecisionOnce(steps, name, i, j);
    }
    var more := steps + [away];
    assert (steps + [again])[..|steps|] == steps && more[..|steps|] == steps && (more + [again])[..|more|] == more;
    TidyKeeps(Exec(steps), away);
    StepExact(Exec(steps), again, name);
    StepExact(Exec(steps), away, name);
    StepExact(Exec(more), again, name);
    HeldDecides(again, name);
  }

  lemma HeldDecides(s: Step, name: string)
    ensures SightOf(s, name) == Held(true, true) ==> Decides(s, name)
  {
  }

  lemma TidyKeeps(r: Reg, s: Step)
    requires Inv(r) && TidyStep(s)
    ensures Inv(Next(r, s))
  {
    NextKeeps(r, s);
  }

  lemma NothingDecided(name: string)
    ensures Inv(EMPTY) && forall j: nat :: !FirstDecision([], name, j)
  {
  }

  /** How the last step changes what was decided first. */
  lemma LastStep(steps: seq<Step>, name: string)
    requires steps != []
    ensures var n, before := |steps| - 1, steps[..|steps| - 1];
            var x, was := SightOf(steps[n], name), exists j: nat :: FirstDecision(before, name, j);
            && (x.Away? ==> forall j: nat :: !FirstDecision(steps, name, j))
            && (!x.Away? ==> forall j: nat :: j < n ==>
                  (FirstDecision(steps, name, j) <==> FirstDecision(before, name, j)) && steps[j] == before[j])
            && (FirstDecision(steps, name, n) <==> !x.Away? && !was && Decides(steps[n], name))
            && (forall j: nat :: FirstDecision(before, name, j) ==> j < n) && (forall j: nat :: FirstDecision(steps, name, j) ==> j <= n)
            && (Decides(steps[n], name) ==> x.Held?)
  {
    var n, before := |steps| - 1, steps[..|steps| - 1];
    hide Decides, SightOf;
    assert SightOf(steps[n], name).Away? ==> Since(steps, name) == n + 1;
    assert !SightOf(steps[n], name).Away? ==> Since(steps, name) == Since(before, name);
    DecidesHeld(steps[n], name);
    if !SightOf(steps[n], name).Away? {
      forall j: nat | j < n ensures FirstDecision(steps, name, j) <==> FirstDecision(before, name, j) {
        DecisionSnoc(steps, name, j);
      }
      if j: nat :| Since(before, name) <= j < n && Decides(before[j], name) {
        LeastDecision(before, name, Since(before, name), j);
      }
    }
  }

  lemma DecidesHeld(s: Step, name: string)
    ensures Decides(s, name) ==> SightOf(s, name).Held?
  {
  }

  // ---------------------------------------------------------------- runners of pods that are gone

  /** The step says nothing about the pod `u`. */
  ghost predicate Ignores(s: Step, u: string) {
    match s
    case PodEvent(pod, _) => pod.uid != u
    case PodDeleted(uid) => uid != u
    case PodResync(pods, _) => u !in Uids(pods)
    case Cluster(_) => true
  }

  /** Dropping pods removes a key with the head `u` if and only if `u` is among them. */
  lemma DropExact(r: Reg, gone: set<string>, k: Key, u: string)
    requires Head(k, u) && NoSlash(u) && forall v :: v in gone ==> NoSlash(v)
    ensures var r' := DropPods(r, gone);
            && r'.clusterSeen == r.clusterSeen
            && (k in r'.runners <==> k in r.runners && u !in gone)
            && (u in r'.seen <==> u in r.seen && u !in gone)
  {
    forall v | v in gone ensures BelongsTo(k, v) <==> u == v {
      HeadBelongs(k, u, v);
    }
    hide BelongsTo, Head, NoSlash;
    assert u in gone ==> BelongsTo(k, u);
  }

  lemma DeleteLeaves(r: Reg, uid: string, k: Key, u: string)
    requires Head(k, u) && NoSlash(u) && NoSlash(uid) && uid != u
    ensures var r' := DropPods(r, {uid});
            r'.clusterSeen == r.clusterSeen && (k in r'.runners <==> k in r.runners) && (u in r'.seen <==> u in r.seen)
  {
    hide Head, DropPods;
    DropExact(r, {uid}, k, u);
  }

  lemma SeenAreGood(r: Reg)
    requires Inv(r)
    ensures forall v :: v in r.seen ==> NoSlash(v)
  {
  }

  lemma ResyncLeaves(r: Reg, pods: seq<Pod>, ready: nat -> nat -> bool, k: Key, u: string)
    requires Inv(r) && Head(k, u) && NoSlash(u) && u !in Uids(pods)
    requires forall j :: 0 <= j < |pods| ==> GoodUid(pods[j].uid)
    ensures var r' := Resync(r, pods, ready);
            && r'.clusterSeen == r.clusterSeen
            && (k in r'.runners <==> k in r.runners && u !in r.seen)
            && u !in r'.seen
  {
    AbsentFrom(pods, u);
    hide Inv, Head, SeePods, DropPods, GoodUid, NoSlash;
    SeePodsLeave(r, pods, ready, 0, k, u);
    SeePodsKeeps(r, pods, ready, 0);
    var r1 := SeePods(r, pods, ready, 0);
    SeenAreGood(r1);
    DropExact(r1, r1.seen - Uids(pods), k, u);
  }

  /** The runners of `u`, or of the cluster policies, under steps of other pods; only a resync
      drops an accepted pod. */
  lemma PodStepLeaves(r: Reg, s: Step, k: Key, u: string)
    requires Inv(r) && GoodStep(s) && Head(k, u) && NoSlash(u) && Ignores(s, u) && !s.Cluster?
    ensures var r' := Next(r, s);
            && r'.clusterSeen == r.clusterSeen
            && (k in r'.runners <==> k in r.runners && (s.PodResync? ==> u !in r.seen))
            && (u in r'.seen <==> u in r.seen && !s.PodResync?)
  {
    hide Inv, Head, SeePod, DropPods, Resync, Uids;
    match s
    case PodEvent(pod, ready) => SeeLeaves(r, pod, ready, k, u);
    case PodDeleted(uid) => DeleteLeaves(r, uid, k, u);
    case PodResync(pods, readyAt) => ResyncLeaves(r, pods, readyAt, k, u);
  }

  lemma AbsentFrom(pods: seq<Pod>, u: string)
    requires u !in Uids(pods)
    ensures forall i :: 0 <= i < |pods| ==> pods[i].uid != u
  {
  }

  lemma SeeLeaves(r: Reg, pod: Pod, ready: nat -> bool, k: Key, u: string)
    requires Head(k, u) && NoSlash(u) && GoodUid(pod.uid) && pod.uid != u
    ensures var r' := SeePod(r, pod, ready);
            (k in r'.runners <==> k in r.runners) && (u in r'.seen <==> u in r.seen) && r'.clusterSeen == r.clusterSeen
  {
    if pod.policies.Some? {
      AddRunnersFacts(r.runners, pod, ready, 0);
    }
    if Head(k, pod.uid) {
      HeadBelongs(k, u, pod.uid);
      HeadBelongs(k, pod.uid, pod.uid);
    }
  }

  lemma {:induction false} SeePodsLeave(r: Reg, pods: seq<Pod>, ready: nat -> nat -> bool, i: nat, k: Key, u: string)
    requires Head(k, u) && NoSlash(u) && i <= |pods|
    requires forall j :: i <= j < |pods| ==> GoodUid(pods[j].uid) && pods[j].uid != u
    ensures var r' := SeePods(r, pods, ready, i);
            (k in r'.runners <==> k in r.runners) && (u in r'.seen <==> u in r.seen) && r'.clusterSeen == r.clusterSeen
    decreases |pods| - i
  {
    hide SeePod, Head;
    if i < |pods| {
      SeeLeaves(r, pods[i], ready(i), k, u);
      SeePodsLeave(SeePod(r, pods[i], ready(i)), pods, ready, i + 1, k, u);
    }
  }

  lemma ClusterPassLeaves(r: Reg, p: Pass, k: Key, u: string)
    requires Inv(r) && Head(k, u) && GoodUid(u)
    ensures (k in ClusterPass(r, p).runners <==> k in r.runners) && ClusterPass(r, p).seen == r.seen
  {
    HeadBelongs(k, u, CLUSTER);
    SeeClustersKeeps(r, p, |p.listed|);
    SeeClustersLeave(r, p, |p.listed|, k, u);
    var r1 := SeeClusters(r, p, |p.listed|);
    hide SeeClusters, ListedKeys;
    if k in r1.clusterSeen {
      HeadBelongs(k, CLUSTER, CLUSTER);
    }
  }

  lemma {:induction false} SeeClustersLeave(r: Reg, p: Pass, i: nat, k: Key, u: string)
    requires Head(k, u) && GoodUid(u) && i <= |p.listed|
    ensures (k in SeeClusters(r, p, i).runners <==> k in r.runners) && SeeClusters(r, p, i).seen == r.seen
  {
    if i > 0 {
      SeeClustersLeave(r, p, i - 1, k, u);
      HeadBelongs(k, u, CLUSTER);
      var name := p.listed[i - 1].name;
      assert Head(ClusterKey(name), CLUSTER);
      HeadBelongs(ClusterKey(name), CLUSTER, CLUSTER);
    }
  }

  /** Which runners of a pod remain when nothing more is heard of it: all of them if no resync
      follows; after a resync exactly those of a pod that was never accepted, which no further
      step will remove. */
  lemma {:induction false} OrphanExact(r: Reg, steps: seq<Step>, k: Key, u: string)
    requires Inv(r) && Head(k, u) && GoodUid(u)
    requires forall i :: 0 <= i < |steps| ==> GoodStep(steps[i]) && Ignores(steps[i], u)
    ensures var r', resync := RunFrom(r, steps), exists i :: 0 <= i < |steps| && steps[i].PodResync?;
            && Inv(r')
            && (k in r'.runners <==> k in r.runners && (u in r.seen ==> !resync))
            && (u in r'.seen <==> u in r.seen && !resync)
    decreases |steps|
  {
    hide Inv, GoodStep, Head, Ignores, Next, GoodUid;
    if steps != [] {
      var n := |steps| - 1;
      var before, r1 := steps[..n], RunFrom(r, steps[..n]);
      OrphanExact(r, before, k, u);
      StepLeaves(r1, steps[n], k, u);
      assert forall i :: 0 <= i < n ==> before[i] == steps[i];
    }
  }

  lemma StepLeaves(r: Reg, s: Step, k: Key, u: string)
    requires Inv(r) && Head(k, u) && GoodUid(u) && GoodStep(s) && Ignores(s, u)
    ensures Inv(Next(r, s))
    ensures k in Next(r, s).runners <==> k in r.runners && (s.PodResync? ==> u !in r.seen)
    ensures u in Next(r, s).seen <==> u in r.seen && !s.PodResync?
  {
    NextKeeps(r, s);
    if s.Cluster? {
      ClusterPassLeaves(r, s.pass, k, u);
    } else {
      PodStepLeaves(r, s, k, u);
    }
  }

  /** A pod of which only the first of two runners could be made, and that is gone at the next
      resync, leaves that runner behind. */
  lemma OrphanLeft(uid: string, p: Policy, q: Policy, ready: nat -> bool, readyAt: nat -> nat -> bool)
    requires GoodUid(uid) && p != q && NoSlash(p.container) && NoSlash(q.container) && ready(0) && !ready(1)
    ensures var steps := [PodEvent(Pod(uid, Some([p, q])), ready), PodResync([], readyAt)];
            Exec(steps).runners == {RunnerKey(uid, p.container, p.logType)} && Exec(steps).seen == {}
  {
    var pod, k := Pod(uid, Some([p, q])), RunnerKey(uid, p.container, p.logType);
    var steps := [PodEvent(pod, ready), PodResync([], readyAt)];
    if RunnerKey(uid, q.container, q.logType) == k {
      KeyInjective(p, q, uid, uid);
    }
    hide RunnerKey;
    assert pod.policies.value == [p, q] && {} + {k} == {k};
    assert AddRunners({k}, pod, ready, 2) == ({k}, true);
    assert AddRunners({k}, pod, ready, 1) == ({k}, false);
    var r := SeePod(EMPTY, pod, ready);
    assert r.runners == {k} && r.seen == {};
    assert r.seen - Uids([]) == {};
    assert Resync(r, [], readyAt) == DropPods(r, {});
    var gone: set<string> := {};
    assert DropPods(r, gone).runners == {k};
    assert steps[..1] == [steps[0]] && [steps[0]][..0] == [];
    assert RunFrom(EMPTY, [steps[0]]) == r;
    assert RunFrom(EMPTY, steps) == Next(r, steps[1]);
  }

  // ---------------------------------------------------------------- the pods that a step is about

  /** The key of policy `j` of a pod. */
  function KeyAt(pod: Pod, j: nat): Key
    requires pod.policies.Some? && j < |pod.policies.value|
  {
    RunnerKey(pod.uid, pod.policies.value[j].container, pod.policies.value[j].logType)
  }

  /** Some policy with the key `k`, from `i` on and before `n`, can have a runner made. */
  ghost predicate Makes(pod: Pod, ready: nat -> bool, k: Key, i: nat, n: nat)
    requires pod.policies.Some? && n <= |pod.policies.value|
  {
    exists j: nat :: i <= j < n && ready(j) && KeyAt(pod, j) == k
  }

  /** For every policy from `i` on a runner exists, can be made, or was just made for an earlier
      policy with the same key. */
  ghost predicate AllReady(runners: set<Key>, pod: Pod, ready: nat -> bool, i: nat)
    requires pod.policies.Some?
  {
    forall j: nat :: i <= j < |pod.policies.value| ==>
      KeyAt(pod, j) in runners || ready(j) || Makes(pod, ready, KeyAt(pod, j), i, j)
  }

  lemma MakesNext(pod: Pod, ready: nat -> bool, k: Key, i: nat, n: nat)
    requires pod.policies.Some? && i < n <= |pod.policies.value|
    ensures Makes(pod, ready, k, i, n) <==> (ready(i) && KeyAt(pod, i) == k) || Makes(pod, ready, k, i + 1, n)
  {
    hide KeyAt;
    if j: nat :| i <= j < n && ready(j) && KeyAt(pod, j) == k {
      assert j == i || i + 1 <= j;
    }
    if j: nat :| i + 1 <= j < n && ready(j) && KeyAt(pod, j) == k {
      assert i <= j;
    }
  }

  lemma AllReadyNext(runners: set<Key>, pod: Pod, ready: nat -> bool, i: nat)
    requires pod.policies.Some? && i < |pod.policies.value|
    ensures var key := KeyAt(pod, i);
            AllReady(runners, pod, ready, i) <==>
              (key in runners || ready(i)) && AllReady(if ready(i) then runners + {key} else runners, pod, ready, i + 1)
  {
    hide KeyAt, Makes;
    assert !Makes(pod, ready, KeyAt(pod, i), i, i) by { NothingMade(pod, ready, KeyAt(pod, i), i); }
    forall j: nat | i < j < |pod.policies.value|
      ensures Makes(pod, ready, KeyAt(pod, j), i, j) <==>
              (ready(i) && KeyAt(pod, i) == KeyAt(pod, j)) || Makes(pod, ready, KeyAt(pod, j), i + 1, j)
    {
      MakesNext(pod, ready, KeyAt(pod, j), i, j);
    }
  }

  lemma NothingMade(pod: Pod, ready: nat -> bool, k: Key, i: nat)
    requires pod.policies.Some? && i <= |pod.policies.value|
    ensures !Makes(pod, ready, k, i, i)
  {
  }

  /** `OnPodAdd` goes through all policies, whatever fails on the way: it registers exactly the
      runners that can be made, and reports whether all are there. */
  lemma {:induction false} AddRunnersExact(runners: set<Key>, pod: Pod, ready: nat -> bool, i: nat, k: Key)
    requires pod.policies.Some? && i <= |pod.policies.value|
    ensures var (runners', ok) := AddRunners(runners, pod, ready, i);
            && (k in runners' <==> k in runners || Makes(pod, ready, k, i, |pod.policies.value|))
            && (ok <==> AllReady(runners, pod, ready, i))
    decreases |pod.policies.value| - i
  {
    hide Makes, AllReady, RunnerKey;
    var n := |pod.policies.value|;
    if i == n {
      NothingMade(pod, ready, k, i);
      NoneLeft(runners, pod, ready);
    } else {
      var key := KeyAt(pod, i);
      MakesNext(pod, ready, k, i, n);
      AllReadyNext(runners, pod, ready, i);
      assert key in runners ==> runners + {key} == runners;
      AddRunnersExact(if ready(i) then runners + {key} else runners, pod, ready, i + 1, k);
    }
  }

  lemma NoneLeft(runners: set<Key>, pod: Pod, ready: nat -> bool)
    requires pod.policies.Some?
    ensures AllReady(runners, pod, ready, |pod.policies.value|)
  {
  }

  /** The pod `pod`, not accepted before, gets the runner `k` by being looked at. */
  ghost predicate Gets(r: Reg, pod: Pod, ready: nat -> bool, k: Key) {
    pod.uid !in r.seen && pod.policies.Some? && Makes(pod, ready, k, 0, |pod.policies.value|)
  }

  /** The pod is accepted by being looked at: its annotation does not parse, or all its runners
      are there then. */
  ghost predicate Acceptable(r: Reg, pod: Pod, ready: nat -> bool) {
    pod.policies.None? || AllReady(r.runners, pod, ready, 0)
  }

  /** What an event does with its pod. */
  lemma {:induction false} SeePodExact(r: Reg, pod: Pod, ready: nat -> bool, k: Key)
    ensures var r', u := SeePod(r, pod, ready), pod.uid;
            && (k in r'.runners <==> k in r.runners || Gets(r, pod, ready, k))
            && (u in r'.seen <==> u in r.seen || Acceptable(r, pod, ready))
            && (u !in r.seen && u in r'.seen ==> u in r'.accepted && r'.accepted[u] == KeysOf(pod))
  {
    hide AddRunners, Makes, AllReady, KeysOf;
    if pod.policies.Some? {
      AddRunnersExact(r.runners, pod, ready, 0, k);
    }
  }

  /** Looking at pods with other uids changes neither the runners nor the state of `pod`, nor
      whether it is ready. */
  lemma {:induction false} AllReadySame(a: set<Key>, b: set<Key>, pod: Pod, ready: nat -> bool)
    requires pod.policies.Some? && forall k :: Head(k, pod.uid) ==> (k in a <==> k in b)
    ensures AllReady(a, pod, ready, 0) <==> AllReady(b, pod, ready, 0)
  {
    forall j: nat | j < |pod.policies.value| ensures Head(KeyAt(pod, j), pod.uid) {
      RunnerKeyHead(pod.uid, pod.policies.value[j]);
    }
    hide KeyAt, Head, Makes;
  }

  ghost predicate DistinctUids(pods: seq<Pod>) {
    forall i, j :: 0 <= i < j < |pods| ==> pods[i].uid != pods[j].uid
  }

  ghost predicate GoodUids(pods: seq<Pod>) {
    forall i :: 0 <= i < |pods| ==> GoodUid(pods[i].uid)
  }

  /** The loop of a resync up to a listed pod and past it. */
  lemma {:induction false} SeePodsExact(r: Reg, pods: seq<Pod>, ready: nat -> nat -> bool, m: nat, i: nat, k: Key)
    requires m <= i < |pods| && DistinctUids(pods) && GoodUids(pods) && Head(k, pods[i].uid)
    ensures var r', pod := SeePods(r, pods, ready, m), pods[i];
            && (k in r'.runners <==> k in r.runners || Gets(r, pod, ready(i), k))
            && (pod.uid in r'.seen <==> pod.uid in r.seen || Acceptable(r, pod, ready(i)))
    decreases i - m
  {
    hide SeePod, Head, Makes, AllReady, GoodUid;
    var pod := pods[i];
    var r1 := SeePod(r, pods[m], ready(m));
    UidIsPlain(pod.uid);
    if m == i {
      SeePodExact(r, pod, ready(i), k);
      SeePodsLeave(r1, pods, ready, m + 1, k, pod.uid);
    } else {
      forall k' | Head(k', pod.uid) ensures k' in r1.runners <==> k' in r.runners {
        SeeLeaves(r, pods[m], ready(m), k', pod.uid);
      }
      SeeLeaves(r, pods[m], ready(m), k, pod.uid);
      if pod.policies.Some? {
        AllReadySame(r.runners, r1.runners, pod, ready(i));
      }
      SeePodsExact(r1, pods, ready, m + 1, i, k);
    }
  }

  lemma UidIsPlain(u: string)
    ensures GoodUid(u) ==> NoSlash(u)
  {
  }

  lemma ListedIn(pods: seq<Pod>, i: nat)
    requires i < |pods|
    ensures pods[i].uid in Uids(pods)
  {
  }

  /** What a resync does with a listed pod: it keeps its runners, gets those that can be made if
      it was not accepted before, and is accepted if it was or all are there. */
  lemma {:induction false} ResyncExact(r: Reg, pods: seq<Pod>, ready: nat -> nat -> bool, i: nat, k: Key)
    requires Inv(r) && i < |pods| && DistinctUids(pods) && GoodUids(pods) && Head(k, pods[i].uid)
    ensures var r', pod := Resync(r, pods, ready), pods[i];
            && (k in r'.runners <==> k in r.runners || Gets(r, pod, ready(i), k))
            && (pod.uid in r'.seen <==> pod.uid in r.seen || Acceptable(r, pod, ready(i)))
  {
    assert forall j :: 0 <= j < |pods| ==> GoodUid(pods[j].uid);
    hide Inv, Head, SeePods, DropPods, GoodUid, NoSlash, Gets, Acceptable;
    UidIsPlain(pods[i].uid);
    SeePodsExact(r, pods, ready, 0, i, k);
    SeePodsKeeps(r, pods, ready, 0);
    var r1 := SeePods(r, pods, ready, 0);
    SeenAreGood(r1);
    ListedIn(pods, i);
    DropExact(r1, r1.seen - Uids(pods), k, pods[i].uid);
  }

  /** So after a restart of the agent every pod on the node whose runners can be made has them. */
  lemma {:induction false} FirstResync(pods: seq<Pod>, ready: nat -> nat -> bool, i: nat, j: nat)
    requires i < |pods| && DistinctUids(pods) && GoodUids(pods)
    requires pods[i].policies.Some? && j < |pods[i].policies.value| && ready(i)(j)
    ensures KeyAt(pods[i], j) in Resync(EMPTY, pods, ready).runners
  {
    var k := KeyAt(pods[i], j);
    RunnerKeyHead(pods[i].uid, pods[i].policies.value[j]);
    assert Makes(pods[i], ready(i), k, 0, |pods[i].policies.value|);
    assert Inv(EMPTY);
    hide Inv, Head, Makes, Resync, KeyAt, DistinctUids, GoodUids, AllReady;
    ResyncExact(EMPTY, pods, ready, i, k);
  }
}
