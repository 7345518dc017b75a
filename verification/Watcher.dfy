/** The watcher object: its methods update the runner map and the `seen` maps in loops, each
    proved against the functions of `Registry`.  Starting and stopping the goroutine behind a
    runner is not part of the state. */
module Watcher {
  import opened Basics
  import opened Registry

  class Agent {
    var runners: set<Key>
    var seen: set<string>
    var clusterSeen: set<Key>
    ghost var accepted: map<string, set<Key>>

    ghost function State(): Reg
      reads this
    {
      Reg(runners, seen, accepted, clusterSeen)
    }

    constructor ()
      ensures State() == EMPTY
    {
      runners, seen, clusterSeen, accepted := {}, {}, {}, map[];
    }

    /** Registers a runner for every container policy of the pod that has none yet. */
    method OnPodAdd(pod: Pod, ready: nat -> bool) returns (allReady: bool)
      modifies `runners
      ensures (runners, allReady) == Registry.OnPodAdd(old(runners), pod, ready)
    {
      allReady := true;
      if pod.policies.None? {
        return;
      }
      var ps := pod.policies.value;
      for i := 0 to |ps|
        invariant var rest := AddRunners(runners, pod, ready, i);
                  Registry.OnPodAdd(old(runners), pod, ready) == (rest.0, allReady && rest.1)
      {
        var key := RunnerKey(pod.uid, ps[i].container, ps[i].logType);
        if key in runners {
          continue;
        }
        if ready(i) {
          runners := runners + {key};
        } else {
          allReady := false;
        }
      }
    }

    /** An Added or Modified event. */
    method OnPodEvent(pod: Pod, ready: nat -> bool)
      modifies `runners, `seen, `accepted
      ensures State() == SeePod(old(State()), pod, ready)
    {
      if pod.uid !in seen {
        var ok := OnPodAdd(pod, ready);
        if ok {
          seen := seen + {pod.uid};
          accepted := accepted[pod.uid := KeysOf(pod)];
        }
      }
    }

    /** Collects the keys under the pod's prefix, then deletes them. */
    method OnPodDeleted(uid: string)
      modifies `runners
      ensures runners == set k | k in old(runners) && !BelongsTo(k, uid)
    {
      var toDelete: set<Key> := {};
      var keys := runners;
      while keys != {}
        invariant keys <= runners && runners == old(runners)
        invariant toDelete == set k | k in runners - keys && BelongsTo(k, uid)
      {
        var k :| k in keys;
        if BelongsTo(k, uid) {
          toDelete := toDelete + {k};
        }
        keys := keys - {k};
      }
      runners := runners - toDelete;
    }

    /** A Deleted event. */
    method OnDeleteEvent(uid: string)
      modifies `runners, `seen, `accepted
      ensures State() == DropPods(old(State()), {uid})
    {
      seen := seen - {uid};
      accepted := accepted - {uid};
      OnPodDeleted(uid);
    }

    /** Looks at every listed pod, then drops the pods that have disappeared; a failed list
        changes nothing. */
    method SyncPods(listed: Option<seq<Pod>>, ready: nat -> nat -> bool)
      modifies `runners, `seen, `accepted
      ensures State() == if listed.Some? then Resync(old(State()), listed.value, ready) else old(State())
    {
      if listed.None? {
        return;
      }
      var pods := listed.value;
      var current: set<string> := {};
      for i := 0 to |pods|
        invariant current == set j | 0 <= j < i :: pods[j].uid
        invariant clusterSeen == old(clusterSeen)
        invariant SeePods(State(), pods, ready, i) == SeePods(old(State()), pods, ready, 0)
      {
        hide SeePod;
        current := current + {pods[i].uid};
        OnPodEvent(pods[i], ready(i));
      }
      ghost var r1 := State();
      var stale := seen - current;
      var todo := stale;
      while todo != {}
        invariant todo <= stale && clusterSeen == r1.clusterSeen
        invariant State() == DropPods(r1, stale - todo)
      {
        var uid :| uid in todo;
        ghost var before := State();
        OnDeleteEvent(uid);
        DropOneMore(r1, stale - todo, uid);
        todo := todo - {uid};
        assert stale - todo == stale - (todo + {uid}) + {uid};
      }
      assert current == Uids(pods);
    }

    method StopRunner(key: Key)
      modifies `runners
      ensures runners == old(runners) - {key}
    {
      if key in runners {
        runners := runners - {key};
      }
    }

    /** Returns whether the policy counts as seen; an unknown input type does, without a runner. */
    method StartClusterPolicyRunner(p: ClusterPolicy, key: Key, builds: bool) returns (ok: bool)
      modifies `runners
      ensures ok == (!p.known || key in old(runners) || builds)
      ensures runners == if p.known && key !in old(runners) && builds then old(runners) + {key} else old(runners)
    {
      if !p.known {
        return true;
      }
      if key in runners {
        return true;
      }
      if !builds {
        return false;
      }
      runners := runners + {key};
      return true;
    }

    method ReconcileOne(p: ClusterPolicy, held: bool, builds: bool)
      modifies `runners, `clusterSeen
      ensures State() == SeeCluster(old(State()), p, held, builds)
    {
      var key := ClusterKey(p.name);
      if !held {
        if key in clusterSeen {
          StopRunner(key);
          clusterSeen := clusterSeen - {key};
        }
        return;
      }
      if key in clusterSeen {
        return;
      }
      var ok := StartClusterPolicyRunner(p, key, builds);
      if ok {
        clusterSeen := clusterSeen + {key};
      }
    }

    /** One pass over the listed cluster policies; a failed list changes nothing. */
    method ReconcileClusterPolicies(pass: Option<Pass>)
      modifies `runners, `clusterSeen
      ensures State() == if pass.Some? then ClusterPass(old(State()), pass.value) else old(State())
    {
      if pass.None? {
        return;
      }
      var p := pass.value;
      var current: set<Key> := {};
      for i := 0 to |p.listed|
        invariant current == set j | 0 <= j < i :: ClusterKey(p.listed[j].name)
        invariant State() == SeeClusters(old(State()), p, i)
      {
        hide SeeCluster, ClusterKey;
        current := current + {ClusterKey(p.listed[i].name)};
        ReconcileOne(p.listed[i], p.held(i), p.builds(i));
      }
      ghost var r1 := State();
      var todo := clusterSeen;
      while todo != {}
        invariant todo <= r1.clusterSeen && seen == r1.seen && accepted == r1.accepted
        invariant runners == r1.runners - ((r1.clusterSeen - todo) - current)
        invariant clusterSeen == r1.clusterSeen - ((r1.clusterSeen - todo) - current)
      {
        var key :| key in todo;
        todo := todo - {key};
        if key in current {
          continue;
        }
        StopRunner(key);
        clusterSeen := clusterSeen - {key};
      }
      assert current == ListedKeys(p);
    }
  }

  lemma DropOneMore(r: Reg, gone: set<string>, uid: string)
    ensures DropPods(DropPods(r, gone), {uid}) == DropPods(r, gone + {uid})
  {
  }
}
