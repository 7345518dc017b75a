/** The operator's finalizer life cycle for one LogPilot, over runs in which users create, edit and
    delete the object at any time, the controller reads it from a cache that may lag behind, any
    API call may fail and the controller may crash anywhere. */
module Finalizer {
  import opened Basics

  datatype Kind = ServiceAccount | Service | ClusterRole | ClusterRoleBinding | Webhook | Deployment | DaemonSet

  /** A managed object; cluster-scoped ones have namespace "". */
  datatype Key = Key(kind: Kind, namespace: string, name: string)

  const API := "log-pilot-api"
  const AGENT := "log-pilot-agent"

  function SupportKeys(ns: string): seq<Key> {
    [Key(ServiceAccount, ns, API), Key(ServiceAccount, ns, AGENT), Key(Service, ns, API),
     Key(ClusterRole, "", ns + "-" + API), Key(ClusterRoleBinding, "", ns + "-" + API),
     Key(ClusterRole, "", ns + "-" + AGENT), Key(ClusterRoleBinding, "", ns + "-" + AGENT), Key(Webhook, "", API)]
  }

  /** What a reconcile creates or updates, in order. */
  function CreatedKeys(ns: string): seq<Key> {
    SupportKeys(ns) + [Key(Deployment, ns, API)] + [Key(DaemonSet, ns, AGENT)]
  }

  /** What a cleanup deletes, in order. */
  function ManagedKeys(ns: string): seq<Key> {
    SupportKeys(ns) + [Key(Deployment, ns, API), Key(DaemonSet, ns, AGENT)]
  }

  /** The LogPilot: our finalizer, whether deletion was requested, and whether it carries
      finalizers of others. */
  datatype Pilot = Pilot(finalizer: bool, deleting: bool, others: bool)

  /** Where the controller stands; `at` is the version of the LogPilot it read. */
  datatype Pc = Idle | Adding(at: nat) | Creating(done: nat) | Cleaning(at: nat, done: nat)

  /** `versions` is every stored state of the LogPilot, None when there is none; the last one is
      current.  `seenAt` is the newest version the controller has read. */
  datatype State = State(ns: string, versions: seq<Option<Pilot>>, objects: set<Key>, pc: Pc, seenAt: nat)

  datatype Step =
    | UserCreate(finalizer: bool, others: bool)
    | UserEdit(addFinalizer: bool, others: bool)
    | UserDelete
    | ObjectDeleted(key: Key)
    | Reconcile(at: nat)
    | AddFinalizer(ok: bool)
    | CreateNext(ok: bool)
    | DeleteNext(ok: bool)
    | RemoveFinalizer(ok: bool)
    | Crash

  function Current(s: State): Option<Pilot> {
    if s.versions == [] then None else s.versions[|s.versions| - 1]
  }

  /** The API server drops an object that is being deleted and has no finalizer left. */
  function Stored(p: Pilot): Option<Pilot> {
    if p.deleting && !p.finalizer && !p.others then None else Some(p)
  }

  function Put(s: State, v: Option<Pilot>): State {
    s.(versions := s.versions + [v])
  }

  /** Users never remove our finalizer, and nobody can add one to an object being deleted. */
  function UserStep(s: State, step: Step): State {
    match step
    case UserCreate(f, o) => if Current(s).None? then Put(s, Some(Pilot(f, false, o))) else s
    case UserEdit(f, o) =>
      if Current(s).None? then s
      else
        var p := Current(s).value;
        Put(s, Stored(Pilot(p.finalizer || (f && !p.deleting), p.deleting, o)))
    case UserDelete => if Current(s).None? then s else Put(s, Stored(Current(s).value.(deleting := true)))
    case ObjectDeleted(key) => s.(objects := s.objects - {key})
    case _ => s
  }

  /** The branch a reconcile takes for the LogPilot it read. */
  function Branch(v: Option<Pilot>, at: nat): Pc {
    match v
    case None => Idle
    case Some(p) =>
      if p.deleting then (if p.finalizer then Cleaning(at, 0) else Idle)
      else if !p.finalizer then Adding(at)
      else Creating(0)
  }

  /** An update of the LogPilot succeeds only if the version read is still the current one. */
  function UpdatePilot(s: State, at: nat, finalizer: bool, ok: bool): State {
    if ok && at + 1 == |s.versions| && s.versions[at].Some?
    then Put(s, Stored(s.versions[at].value.(finalizer := finalizer))).(pc := Idle)
    else s.(pc := Idle)
  }

  function ControllerStep(s: State, step: Step): State {
    match step
    case Reconcile(at) =>
      if s.pc.Idle? && s.seenAt <= at < |s.versions| then s.(seenAt := at, pc := Branch(s.versions[at], at)) else s
    case AddFinalizer(ok) => if s.pc.Adding? then UpdatePilot(s, s.pc.at, true, ok) else s
    case CreateNext(ok) =>
      if !s.pc.Creating? then s
      else if !ok || s.pc.done >= |CreatedKeys(s.ns)| then s.(pc := Idle)
      else s.(objects := s.objects + {CreatedKeys(s.ns)[s.pc.done]}, pc := Creating(s.pc.done + 1))
    case DeleteNext(ok) =>
      if !s.pc.Cleaning? || s.pc.done >= |ManagedKeys(s.ns)| then s
      else if !ok then s.(pc := Idle)
      else s.(objects := s.objects - {ManagedKeys(s.ns)[s.pc.done]}, pc := Cleaning(s.pc.at, s.pc.done + 1))
    case RemoveFinalizer(ok) =>
      if s.pc.Cleaning? && s.pc.done == |ManagedKeys(s.ns)| then UpdatePilot(s, s.pc.at, false, ok) else s
    case Crash => s.(pc := Idle)
    case _ => s
  }

  predicate IsUser(step: Step) {
    step.UserCreate? || step.UserEdit? || step.UserDelete? || step.ObjectDeleted?
  }

  function Next(s: State, step: Step): State {
    if IsUser(step) then UserStep(s, step) else ControllerStep(s, step)
  }

  function Exec(s: State, steps: seq<Step>): State {
    if steps == [] then s else Next(Exec(s, steps[..|steps| - 1]), steps[|steps| - 1])
  }

  function Start(ns: string): State {
    State(ns, [None], {}, Idle, 0)
  }

  // ---------------------------------------------------------------- the invariant

  ghost predicate HasFinalizer(v: Option<Pilot>) {
    v.Some? && v.value.finalizer
  }

  /** A version that makes a reconcile create objects. */
  ghost predicate Wanted(v: Option<Pilot>) {
    HasFinalizer(v) && !v.value.deleting
  }

  /** From a wanted version the controller can still read, the finalizer has never gone. */
  ghost predicate Guarded(s: State) {
    forall i, j :: s.seenAt <= i <= j < |s.versions| && Wanted(s.versions[i]) ==> HasFinalizer(s.versions[j])
  }

  ghost predicate PcOk(s: State) {
    match s.pc
    case Idle => true
    case Adding(at) => true
    case Creating(_) => HasFinalizer(Current(s))
    case Cleaning(at, done) =>
      && at == s.seenAt < |s.versions| && s.versions[at].Some? && s.versions[at].value.deleting
      && done <= |ManagedKeys(s.ns)|
      && forall k :: 0 <= k < done ==> ManagedKeys(s.ns)[k] !in s.objects
  }

  ghost predicate Inv(s: State) {
    && s.seenAt < |s.versions|
    && (forall k :: k in s.objects ==> k in ManagedKeys(s.ns))
    && (s.objects != {} ==> HasFinalizer(Current(s)))
    && Guarded(s) && PcOk(s)
  }

  /** A cleanup deletes everything that a reconcile creates. */
  lemma CleanupCoversCreation(ns: string)
    ensures CreatedKeys(ns) == ManagedKeys(ns)
  {
  }

  /** The managed keys by kind: each component has an account in the namespace and a cluster role
      with its binding; the API has a service, a webhook and a deployment, the agent a daemon set. */
  lemma KeysExact(ns: string, k: Key)
    ensures k in ManagedKeys(ns) <==>
              match k.kind
              case ServiceAccount => k.namespace == ns && (k.name == "log-pilot-api" || k.name == "log-pilot-agent")
              case Service => k.namespace == ns && k.name == "log-pilot-api"
              case ClusterRole => k.namespace == "" && (k.name == ns + "-log-pilot-api" || k.name == ns + "-log-pilot-agent")
              case ClusterRoleBinding =>
                k.namespace == "" && (k.name == ns + "-log-pilot-api" || k.name == ns + "-log-pilot-agent")
              case Webhook => k.namespace == "" && k.name == "log-pilot-api"
              case Deployment => k.namespace == ns && k.name == "log-pilot-api"
              case DaemonSet => k.namespace == ns && k.name == "log-pilot-agent"
  {
    assert ns + "-" + API == ns + "-log-pilot-api" && ns + "-" + AGENT == ns + "-log-pilot-agent";
  }

  lemma RoleNames(ns: string, ns': string)
    ensures ns + "-log-pilot-api" == ns' + "-log-pilot-api" ==> ns == ns'
    ensures ns + "-log-pilot-agent" == ns' + "-log-pilot-agent" ==> ns == ns'
    ensures ns + "-log-pilot-api" != ns' + "-log-pilot-agent"
  {
    var a, b := ns + "-log-pilot-api", ns' + "-log-pilot-agent";
    assert a[|a| - 1] == 'i' && b[|b| - 1] == 't';
    var c, d := ns' + "-log-pilot-api", ns + "-log-pilot-agent";
    assert a[..|a| - 14] == ns && c[..|c| - 14] == ns';
    assert b[..|b| - 16] == ns' && d[..|d| - 16] == ns;
  }

  /** LogPilots in different namespaces share no managed object but the webhook. */
  lemma {:induction false} SharedKeys(ns: string, ns': string, k: Key)
    requires ns != ns'
    ensures k in ManagedKeys(ns) && k in ManagedKeys(ns') <==> k == Key(Webhook, "", "log-pilot-api")
  {
    hide ManagedKeys;
    KeysExact(ns, k);
    KeysExact(ns', k);
    RoleNames(ns, ns');
    RoleNames(ns', ns);
  }

  lemma {:induction false} UserKeeps(s: State, step: Step)
    requires Inv(s) && IsUser(step)
    ensures Inv(UserStep(s, step))
  {
    hide ManagedKeys;
    var s' := UserStep(s, step);
    assert HasFinalizer(Current(s)) ==> HasFinalizer(Current(s'));
    forall i, j | s'.seenAt <= i <= j < |s'.versions| && Wanted(s'.versions[i]) ensures HasFinalizer(s'.versions[j]) {
      if i < |s.versions| <= j {
        assert HasFinalizer(s.versions[|s.versions| - 1]);
      }
    }
  }

  /** Once every managed key has been deleted, no object is left. */
  lemma AllDeleted(s: State)
    requires Inv(s) && s.pc.Cleaning? && s.pc.done == |ManagedKeys(s.ns)|
    ensures s.objects == {}
  {
    hide ManagedKeys;
    forall k | k in ManagedKeys(s.ns) ensures k !in s.objects {
      var i :| 0 <= i < |ManagedKeys(s.ns)| && ManagedKeys(s.ns)[i] == k;
    }
    assert forall k :: k in s.objects ==> k in ManagedKeys(s.ns);
  }

  lemma {:induction false} ControllerKeeps(s: State, step: Step)
    requires Inv(s) && !IsUser(step)
    ensures Inv(ControllerStep(s, step))
  {
    CleanupCoversCreation(s.ns);
    hide ManagedKeys, CreatedKeys;
    match step
    case RemoveFinalizer(ok) =>
      if s.pc.Cleaning? && s.pc.done == |ManagedKeys(s.ns)| {
        AllDeleted(s);
      }
    case CreateNext(ok) =>
    case Reconcile(at) =>
      if s.pc.Idle? && s.seenAt <= at < |s.versions| && Wanted(s.versions[at]) {
        assert HasFinalizer(s.versions[|s.versions| - 1]);
      }
    case _ =>
  }

  lemma {:induction false} ExecKeeps(s: State, steps: seq<Step>)
    requires Inv(s)
    ensures Inv(Exec(s, steps))
    decreases |steps|
  {
    if steps != [] {
      ExecKeeps(s, steps[..|steps| - 1]);
      hide Inv, UserStep, ControllerStep, IsUser;
      var before, step := Exec(s, steps[..|steps| - 1]), steps[|steps| - 1];
      if IsUser(step) {
        UserKeeps(before, step);
      } else {
        ControllerKeeps(before, step);
      }
    }
  }

  /** Finalizer safety over every run: a managed object exists only while the stored LogPilot
      carries the finalizer, so none is left once the finalizer or the LogPilot is gone. */
  lemma {:induction false} FinalizerSafety(ns: string, steps: seq<Step>)
    ensures var s := Exec(Start(ns), steps);
            s.objects != {} ==> Current(s).Some? && Current(s).value.finalizer
  {
    ExecKeeps(Start(ns), steps);
  }

  // ---------------------------------------------------------------- one reconcile in sequence

  ghost predicate ControllerOnly(steps: seq<Step>) {
    forall i :: 0 <= i < |steps| ==> !IsUser(steps[i])
  }

  /** One more step of a run from `s`. */
  method Take(ghost s: State, at: State, ghost before: seq<Step>, step: Step) returns (next: State, ghost steps: seq<Step>)
    requires at == Exec(s, before) && Inv(at) && ControllerOnly(before) && !IsUser(step)
    ensures next == ControllerStep(at, step) && next == Exec(s, steps) && Inv(next) && ControllerOnly(steps)
  {
    next := ControllerStep(at, step);
    steps := before + [step];
    assert steps[..|steps| - 1] == before;
    ControllerKeeps(at, step);
  }

  /** The first `n` keys of a list. */
  function FirstKeys(keys: seq<Key>, n: nat): set<Key>
    requires n <= |keys|
  {
    set i | 0 <= i < n :: keys[i]
  }

  lemma FirstKeysMore(keys: seq<Key>, n: nat)
    requires n < |keys|
    ensures FirstKeys(keys, n + 1) == FirstKeys(keys, n) + {keys[n]}
  {
  }

  /** Of `total` calls, `n` succeed and then one fails, unless these are all. */
  ghost predicate FailsAfter(ok: nat -> bool, n: nat, total: nat) {
    n <= total && (forall j: nat :: j < n ==> ok(j)) && (n < total ==> !ok(n))
  }

  /** The creating branch: `ok(n)` says whether call `n` succeeds; exactly the objects before the
      first failure are there afterwards. */
  method CreateAll(ghost s: State, at: State, ghost before: seq<Step>, ok: nat -> bool)
    returns (s': State, ghost steps: seq<Step>)
    requires at == Exec(s, before) && Inv(at) && ControllerOnly(before) && at.pc == Creating(0)
    ensures s' == Exec(s, steps) && Inv(s') && ControllerOnly(steps) && s'.pc.Idle?
    ensures exists n: nat :: FailsAfter(ok, n, |CreatedKeys(at.ns)|)
                             && s' == at.(pc := Idle, objects := at.objects + FirstKeys(CreatedKeys(at.ns), n))
    ensures (forall n :: ok(n)) ==> forall k :: k in CreatedKeys(at.ns) ==> k in s'.objects
  {
    hide Inv, CreatedKeys, ManagedKeys, Exec, FirstKeys;
    ghost var keys := CreatedKeys(at.ns);
    s', steps := at, before;
    NoKeys(at, keys);
    for n := 0 to |CreatedKeys(at.ns)|
      invariant s' == Exec(s, steps) && Inv(s') && ControllerOnly(steps)
      invariant s' == at.(pc := Creating(n), objects := at.objects + FirstKeys(keys, n))
      invariant forall j: nat :: j < n ==> ok(j)
    {
      FirstKeysMore(keys, n);
      s', steps := Take(s, s', steps, CreateNext(ok(n)));
      if !ok(n) {
        assert FailsAfter(ok, n, |keys|);
        return;
      }
    }
    AllKeys(keys);
    assert FailsAfter(ok, |keys|, |keys|);
    s', steps := Take(s, s', steps, CreateNext(true));
  }

  lemma NoKeys(s: State, keys: seq<Key>)
    ensures s.objects + FirstKeys(keys, 0) == s.objects && s.objects - FirstKeys(keys, 0) == s.objects
  {
  }

  lemma AllKeys(keys: seq<Key>)
    ensures forall k :: k in keys <==> k in FirstKeys(keys, |keys|)
  {
  }

  /** The deleting branch: cleanup, up to the first failure, and then the finalizer, which goes
      only if every deletion and the update succeeded and the version read is still current. */
  method CleanUp(ghost s: State, at: State, ghost before: seq<Step>, ok: nat -> bool)
    returns (s': State, ghost steps: seq<Step>)
    requires at == Exec(s, before) && Inv(at) && ControllerOnly(before) && at.pc == Cleaning(at.seenAt, 0)
    ensures s' == Exec(s, steps) && Inv(s') && ControllerOnly(steps) && s'.pc.Idle?
    ensures var total := |ManagedKeys(at.ns)|;
            exists n: nat :: FailsAfter(ok, n, total) && s'.objects == at.objects - FirstKeys(ManagedKeys(at.ns), n)
                             && s'.versions == if n == total && ok(total) && at.seenAt + 1 == |at.versions| && Current(at).Some?
                                               then at.versions + [Stored(Current(at).value.(finalizer := false))] else at.versions
    ensures (forall n :: ok(n)) ==> s'.objects == {}
  {
    hide Inv, ManagedKeys, Exec, FirstKeys;
    ghost var keys := ManagedKeys(at.ns);
    s', steps := at, before;
    NoKeys(at, keys);
    for n := 0 to |ManagedKeys(at.ns)|
      invariant s' == Exec(s, steps) && Inv(s') && ControllerOnly(steps)
      invariant s' == at.(pc := Cleaning(at.seenAt, n), objects := at.objects - FirstKeys(keys, n))
      invariant forall j: nat :: j < n ==> ok(j)
    {
      FirstKeysMore(keys, n);
      s', steps := Take(s, s', steps, DeleteNext(ok(n)));
      if !ok(n) {
        assert FailsAfter(ok, n, |keys|);
        return;
      }
    }
    AllDeleted(s');
    assert FailsAfter(ok, |keys|, |keys|);
    s', steps := Take(s, s', steps, RemoveFinalizer(ok(|ManagedKeys(at.ns)|)));
  }

  /** A LogPilot that is not being deleted and does not carry the finalizer yet. */
  ghost predicate Unmarked(v: Option<Pilot>) {
    v.Some? && !v.value.deleting && !v.value.finalizer
  }

  /** `Reconcile` without interruption.  It is a run of controller steps; when every call succeeds
      it leaves all managed objects or, for a LogPilot being deleted, none, and then the finalizer
      is gone too if the version read was current.  One without the finalizer only gets it. */
  method DoReconcile(s: State, at: nat, ok: nat -> bool) returns (s': State, ghost steps: seq<Step>)
    requires Inv(s) && s.pc.Idle? && s.seenAt <= at < |s.versions|
    ensures s' == Exec(s, steps) && Inv(s') && ControllerOnly(steps) && s'.pc.Idle?
    ensures Wanted(s.versions[at]) && (forall n :: ok(n)) ==> forall k :: k in CreatedKeys(s.ns) ==> k in s'.objects
    ensures Wanted(s.versions[at]) ==> s'.versions == s.versions
    ensures HasFinalizer(s.versions[at]) && s.versions[at].value.deleting && (forall n :: ok(n)) ==>
              s'.objects == {} && (at + 1 == |s.versions| ==>
                Current(s') == if s.versions[at].value.others then Some(s.versions[at].value.(finalizer := false)) else None)
    ensures Unmarked(s.versions[at]) ==>
              && s'.objects == s.objects
              && s'.versions == if ok(0) && at + 1 == |s.versions|
                                then s.versions + [Some(s.versions[at].value.(finalizer := true))] else s.versions
    ensures s.versions[at].None? || (s.versions[at].value.deleting && !s.versions[at].value.finalizer) ==>
              s' == s.(seenAt := at)
  {
    hide Inv, CreatedKeys, ManagedKeys;
    s', steps := Take(s, s, [], Reconcile(at));
    match s'.pc
    case Adding(_) => s', steps := Take(s, s', steps, AddFinalizer(ok(0)));
    case Creating(_) => s', steps := CreateAll(s, s', steps, ok);
    case Cleaning(_, _) => s', steps := CleanUp(s, s', steps, ok);
    case Idle =>
  }

  // ---------------------------------------------------------------- recovery

  lemma {:induction false} ExecConcat(s: State, a: seq<Step>, b: seq<Step>)
    ensures Exec(s, a + b) == Exec(Exec(s, a), b)
    decreases |b|
  {
    hide Next;
    if b == [] {
      assert a + b == a;
    } else {
      assert (a + b)[..|a + b| - 1] == a + b[..|b| - 1];
      ExecConcat(s, a, b[..|b| - 1]);
    }
  }

  /** What a settled controller leaves: all objects for a LogPilot that is wanted, with the
      finalizer set; none for one that is being deleted or gone, with the finalizer removed. */
  ghost predicate Settled(v: Option<Pilot>, s: State) {
    match v
    case None => s.objects == {} && Current(s).None?
    case Some(p) =>
      if p.deleting then
        s.objects == {} && Current(s) == if p.others then Some(p.(finalizer := false)) else None
      else
        (forall k :: k in CreatedKeys(s.ns) ==> k in s.objects) && Current(s) == Some(p.(finalizer := true))
  }

  /** A deleted LogPilot without finalizers is not stored. */
  ghost predicate Storable(s: State) {
    Current(s).Some? ==> Stored(Current(s).value).Some?
  }

  /** What one undisturbed reconcile of the current version does. */
  ghost predicate Reconciled(s: State, s': State) {
    match Current(s)
    case None => s'.objects == s.objects && Current(s').None?
    case Some(p) =>
      if p.deleting && p.finalizer then s'.objects == {} && Current(s') == Stored(p.(finalizer := false))
      else if p.deleting then s'.objects == s.objects && Current(s') == Some(p)
      else if p.finalizer then (forall k :: k in CreatedKeys(s.ns) ==> k in s'.objects) && Current(s') == Some(p)
      else s'.objects == s.objects && Current(s') == Some(p.(finalizer := true))
  }

  method ReconcileNow(ghost s: State, at: State, ghost before: seq<Step>) returns (s': State, ghost steps: seq<Step>)
    requires at == Exec(s, before) && Inv(at) && ControllerOnly(before) && at.pc.Idle?
    ensures s' == Exec(s, steps) && Inv(s') && ControllerOnly(steps) && s'.pc.Idle?
    ensures s'.ns == at.ns && Reconciled(at, s')
  {
    hide Inv, CreatedKeys, ManagedKeys, Exec, ControllerOnly;
    SeenCurrent(at);
    ghost var more;
    var ok := (n: nat) => true;
    assert forall n :: ok(n);
    s', more := DoReconcile(at, |at.versions| - 1, ok);
    ExecConcat(s, before, more);
    NsKept(at, more);
    OnlyConcat(before, more);
    steps := before + more;
  }

  lemma OnlyConcat(a: seq<Step>, b: seq<Step>)
    requires ControllerOnly(a) && ControllerOnly(b)
    ensures ControllerOnly(a + b)
  {
  }

  lemma SettledOnce(s: State, s': State)
    requires Inv(s) && Storable(s) && Reconciled(s, s') && !Unmarked(Current(s)) && s'.ns == s.ns
    ensures Settled(Current(s), s') && Storable(s')
  {
    hide CreatedKeys, ManagedKeys;
  }

  lemma SettledTwice(s: State, s1: State, s2: State)
    requires Reconciled(s, s1) && Reconciled(s1, s2) && Unmarked(Current(s)) && s1.ns == s.ns && s2.ns == s.ns
    ensures Settled(Current(s), s2) && Storable(s2)
  {
    hide CreatedKeys, ManagedKeys;
  }

  /** From every reachable state, in the middle of whatever reconcile, a crash and at most two
      reconciles of the current version in which no call fails settle everything. */
  method Recover(s: State) returns (s': State, ghost steps: seq<Step>)
    requires Inv(s) && Storable(s)
    ensures s' == Exec(s, steps) && Inv(s') && ControllerOnly(steps)
    ensures Settled(Current(s), s') && Storable(s') && s'.ns == s.ns && s'.pc.Idle?
  {
    s', steps := Take(s, s, [], Crash);
    hide Inv, CreatedKeys, ManagedKeys, Exec, Settled, Reconciled;
    ghost var s0 := s';
    assert Current(s0) == Current(s) && Storable(s0);
    s', steps := ReconcileNow(s, s', steps);
    ghost var s1 := s';
    if Current(s).Some? && !Current(s).value.deleting && !Current(s).value.finalizer {
      s', steps := ReconcileNow(s, s', steps);
      SettledTwice(s0, s1, s');
    } else {
      SettledOnce(s0, s');
    }
  }

  lemma SeenCurrent(s: State)
    requires Inv(s)
    ensures s.seenAt <= |s.versions| - 1 && s.versions[|s.versions| - 1] == Current(s)
  {
  }

  lemma {:induction false} NsKept(s: State, steps: seq<Step>)
    ensures Exec(s, steps).ns == s.ns
    decreases |steps|
  {
    if steps != [] {
      NsKept(s, steps[..|steps| - 1]);
      hide CreatedKeys, ManagedKeys;
    }
  }

  /** Which every state of a run is. */
  lemma {:induction false} AlwaysStorable(ns: string, steps: seq<Step>)
    ensures Inv(Exec(Start(ns), steps)) && Storable(Exec(Start(ns), steps))
    decreases |steps|
  {
    ExecKeeps(Start(ns), steps);
    if steps != [] {
      hide Inv, Storable, Next;
      AlwaysStorable(ns, steps[..|steps| - 1]);
      StorableStep(Exec(Start(ns), steps[..|steps| - 1]), steps[|steps| - 1]);
    }
  }

  lemma StorableStep(s: State, step: Step)
    requires Storable(s)
    ensures Storable(Next(s, step))
  {
    hide CreatedKeys, ManagedKeys;
  }

  /** A whole life: a LogPilot is created, gets its finalizer and all managed objects, is deleted,
      and goes with all of them. */
  method LifeCycle(ns: string) returns (created: State, gone: State)
    ensures Inv(created) && Current(created) == Some(Pilot(true, false, false)) && created.ns == ns
    ensures forall k :: k in CreatedKeys(ns) ==> k in created.objects
    ensures Current(gone).None? && gone.objects == {}
  {
    var s := UserStep(Start(ns), UserCreate(false, false));
    UserKeeps(Start(ns), UserCreate(false, false));
    hide Inv, CreatedKeys, ManagedKeys;
    ghost var run: seq<Step>;
    created, run := Recover(s);
    var deleted := UserStep(created, UserDelete);
    UserKeeps(created, UserDelete);
    gone, run := Recover(deleted);
  }

  /** A managed object that someone deletes is created again by the next reconcile. */
  method Heal(s: State, key: Key) returns (broken: State, healed: State)
    requires Inv(s) && s.pc.Idle? && Wanted(Current(s)) && key in CreatedKeys(s.ns)
    ensures broken == Next(s, ObjectDeleted(key)) && key !in broken.objects
    ensures forall k :: k in CreatedKeys(s.ns) ==> k in healed.objects
    ensures Current(healed) == Current(s)
  {
    hide Inv, CreatedKeys, ManagedKeys, Exec;
    broken := UserStep(s, ObjectDeleted(key));
    ObjectGone(s, key);
    ghost var run: seq<Step>;
    healed, run := ReconcileNow(broken, broken, []);
  }

  lemma ObjectGone(s: State, key: Key)
    requires Inv(s)
    ensures var b := UserStep(s, ObjectDeleted(key));
            && Inv(b) && b.pc == s.pc && b.ns == s.ns && Current(b) == Current(s) && key !in b.objects
            && Exec(b, []) == b
  {
    UserKeeps(s, ObjectDeleted(key));
    hide Inv, CreatedKeys, ManagedKeys;
  }

  /** A LogPilot that carries a finalizer of others outlives its deletion and our cleanup, without
      our finalizer, and goes when the others let it go. */
  method HeldByOthers(ns: string) returns (cleaned: State, gone: State)
    ensures Current(cleaned) == Some(Pilot(false, true, true)) && cleaned.objects == {}
    ensures gone == Next(cleaned, UserEdit(true, false)) && Current(gone).None?
  {
    var created, _ := LifeCycle(ns);
    hide Inv, CreatedKeys, ManagedKeys;
    var held := UserStep(created, UserEdit(false, true));
    UserKeeps(created, UserEdit(false, true));
    var deleted := UserStep(held, UserDelete);
    UserKeeps(held, UserDelete);
    ghost var run: seq<Step>;
    cleaned, run := Recover(deleted);
    gone := UserStep(cleaned, UserEdit(true, false));
  }
}
