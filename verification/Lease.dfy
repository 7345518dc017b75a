/** The cluster-policy lease: any number of agents with distinct names take one lease object by
    get, expiry check and compare-and-swap.  Times are in true time; each agent's clock may be
    off by up to `skew`, and a perfect clock is the case `skew == 0`. */
module Lease {
  import opened Basics

  type Name = string

  /** 30 seconds, in microseconds. */
  const TTL := 30_000_000

  /** The stored object; `holder` or `renew` may be missing in an object made by someone else. */
  datatype LeaseObj = LeaseObj(holder: Option<Name>, renew: Option<int>, acquire: Option<int>, version: nat)

  /** What an agent does after it fetched the lease. */
  datatype Action = GiveUp | Create(lease: LeaseObj) | Update(lease: LeaseObj)

  /** The decision part of one attempt: `now` was read before the fetch, `check` is the clock at
      the expiry check. */
  function Decide(me: Name, now: int, got: Option<LeaseObj>, check: int): Action {
    if got.None? then Create(LeaseObj(Some(me), Some(now), Some(now), 0))
    else
      var l := got.value;
      if l.holder.Some? && l.holder.value != me && l.renew.Some? && check - l.renew.value <= TTL then GiveUp
      else Update(l.(holder := Some(me), renew := Some(now), acquire := if l.acquire.None? then Some(now) else l.acquire))
  }

  /** An agent inside an attempt: it has read its clock (at true time `readAt`), or also fetched
      the lease, or also passed the expiry check (at true time `checkAt`). */
  datatype Local =
    | Off
    | Started(now: int, readAt: int)
    | Fetched(now: int, readAt: int, got: Option<LeaseObj>)
    | Deciding(now: int, readAt: int, got: Option<LeaseObj>, action: Action, checkAt: int)

  /** A successful write of the lease. */
  datatype Write = Write(who: Name, readAt: int, renew: int, checkAt: int, at: int)

  datatype System = System(time: int, store: Option<LeaseObj>, agents: map<Name, Local>, writes: seq<Write>)

  datatype Step =
    | Tick(dt: nat)
    | Start(who: Name, clock: int)
    | Fetch(who: Name)
    | Check(who: Name, clock: int)
    | Store(who: Name)
    | Fail(who: Name)

  /** A clock reading an agent may get at true time `time`. */
  predicate Reading(skew: nat, time: int, clock: int) {
    time - skew <= clock <= time + skew
  }

  /** One step of one agent, or of time.  Steps that do not fit do nothing; `Fail` is an error or a
      lost race at any point, after which the agent may start another attempt. */
  function Next(skew: nat, s: System, step: Step): System {
    match step
    case Tick(dt) => s.(time := s.time + dt)
    case Start(who, clock) =>
      if who in s.agents && s.agents[who].Off? && Reading(skew, s.time, clock)
      then s.(agents := s.agents[who := Started(clock, s.time)]) else s
    case Fetch(who) =>
      if who in s.agents && s.agents[who].Started?
      then s.(agents := s.agents[who := Fetched(s.agents[who].now, s.agents[who].readAt, s.store)]) else s
    case Check(who, clock) =>
      if who in s.agents && s.agents[who].Fetched? && Reading(skew, s.time, clock) then
        var a := s.agents[who];
        var action := Decide(who, a.now, a.got, clock);
        s.(agents := s.agents[who := if action.GiveUp? then Off else Deciding(a.now, a.readAt, a.got, action, s.time)])
      else s
    case Store(who) =>
      if who in s.agents && s.agents[who].Deciding? && Accepts(s.store, s.agents[who].action) then
        var a := s.agents[who];
        var version := if s.store.Some? then s.store.value.version + 1 else 1;
        s.(store := Some(a.action.lease.(version := version)),
           agents := s.agents[who := Off],
           writes := s.writes + [Write(who, a.readAt, a.now, a.checkAt, s.time)])
      else s
    case Fail(who) =>
      if who in s.agents then s.(agents := s.agents[who := Off]) else s
  }

  /** Create only if absent, update only if unchanged since it was fetched. */
  predicate Accepts(store: Option<LeaseObj>, action: Action) {
    match action
    case GiveUp => false
    case Create(_) => store.None?
    case Update(l) => store.Some? && store.value.version == l.version
  }

  /** Any lease object may exist at the start; nobody is inside an attempt. */
  ghost predicate Init(s: System) {
    s.writes == [] && forall a :: a in s.agents ==> s.agents[a].Off?
  }

  function Exec(skew: nat, s: System, steps: seq<Step>): System {
    if steps == [] then s else Next(skew, Exec(skew, s, steps[..|steps| - 1]), steps[|steps| - 1])
  }

  // ---------------------------------------------------------------- the invariant

  /** The stored lease is the last one written. */
  ghost predicate StoreIsLast(s: System) {
    s.writes != [] ==>
      var w := s.writes[|s.writes| - 1];
      s.store.Some? && s.store.value.holder == Some(w.who) && s.store.value.renew == Some(w.renew)
  }

  /** All writes lie in the past, and those of `who` before `readAt`. */
  ghost predicate Past(s: System) {
    forall i :: 0 <= i < |s.writes| ==> s.writes[i].at <= s.time
  }

  ghost predicate OwnBefore(s: System, who: Name, readAt: int) {
    forall i :: 0 <= i < |s.writes| && s.writes[i].who == who ==> s.writes[i].at <= readAt
  }

  /** A fetched lease is an older version, or the stored lease itself. */
  ghost predicate GotOk(s: System, got: Option<LeaseObj>) {
    got.Some? ==> s.store.Some? && got.value.version <= s.store.value.version
                  && (got.value.version == s.store.value.version ==> got == s.store)
  }

  /** Another agent's lease was seen expired at true time `checkAt`. */
  ghost predicate SeenExpired(skew: nat, who: Name, got: Option<LeaseObj>, checkAt: int) {
    got.Some? && got.value.holder.Some? && got.value.holder.value != who && got.value.renew.Some? ==>
      checkAt + skew - got.value.renew.value > TTL
  }

  ghost predicate ActionOk(who: Name, now: int, got: Option<LeaseObj>, action: Action) {
    match action
    case GiveUp => false
    case Create(l) => got.None? && l.holder == Some(who) && l.renew == Some(now)
    case Update(l) =>
      && got.Some? && l.holder == Some(who) && l.renew == Some(now) && l.version == got.value.version
      && (got.value.acquire.Some? ==> l.acquire == got.value.acquire)
  }

  /** What an agent inside an attempt knows.  If the lease it fetched is still the stored one,
      nothing was written since its check. */
  ghost predicate LocalOk(skew: nat, s: System, who: Name, a: Local) {
    a.Off? ||
    (&& a.readAt <= s.time && Reading(skew, a.readAt, a.now) && OwnBefore(s, who, a.readAt)
     && (a.Started? || GotOk(s, a.got))
     && (a.Deciding? ==>
           && a.readAt <= a.checkAt <= s.time
           && ActionOk(who, a.now, a.got, a.action)
           && SeenExpired(skew, who, a.got, a.checkAt)
           && (a.got == s.store ==> forall i :: 0 <= i < |s.writes| ==> s.writes[i].at <= a.checkAt)))
  }

  /** Every write was checked before it was made, and the check came more than the lease time,
      less the error of two clocks, after the clock reading of any earlier write by another
      agent. */
  ghost predicate Excluded(skew: nat, ws: seq<Write>) {
    && (forall i :: 0 <= i < |ws| ==> ws[i].readAt <= ws[i].checkAt <= ws[i].at && Reading(skew, ws[i].readAt, ws[i].renew))
    && (forall i, j :: 0 <= i < j < |ws| ==> Follows(skew, ws[i], ws[j]))
  }

  ghost predicate Follows(skew: nat, w: Write, w': Write) {
    && w.at <= w'.checkAt
    && (w.who == w'.who ==> w.readAt <= w'.readAt)
    && (w.who != w'.who ==> w'.checkAt - w.readAt > TTL - 2 * skew)
  }

  ghost predicate Inv(skew: nat, s: System) {
    && StoreIsLast(s) && Past(s) && Excluded(skew, s.writes)
    && (forall a :: a in s.agents ==> LocalOk(skew, s, a, s.agents[a]))
  }

  // ---------------------------------------------------------------- steps

  /** A write whose fetched lease is still the stored one keeps its distance from all before it. */
  lemma WriteFollows(skew: nat, s: System, who: Name, i: nat)
    requires Inv(skew, s) && who in s.agents && s.agents[who].Deciding? && Accepts(s.store, s.agents[who].action)
    requires i < |s.writes|
    ensures var a := s.agents[who];
            Follows(skew, s.writes[i], Write(who, a.readAt, a.now, a.checkAt, s.time))
  {
    var a := s.agents[who];
    var last := s.writes[|s.writes| - 1];
    assert a.got == s.store;
    assert s.writes[i].at <= a.checkAt && last.at <= a.checkAt;
    assert i < |s.writes| - 1 ==> Follows(skew, s.writes[i], last);
  }

  lemma StoreKeeps(skew: nat, s: System, who: Name)
    requires Inv(skew, s) && who in s.agents && s.agents[who].Deciding? && Accepts(s.store, s.agents[who].action)
    ensures Inv(skew, Next(skew, s, Store(who)))
  {
    var s' := Next(skew, s, Store(who));
    var a, n := s.agents[who], |s.writes|;
    var w := Write(who, a.readAt, a.now, a.checkAt, s.time);
    assert s'.writes == s.writes + [w];
    forall i | 0 <= i < n ensures Follows(skew, s'.writes[i], w) {
      WriteFollows(skew, s, who, i);
    }
    forall b | b in s'.agents ensures LocalOk(skew, s', b, s'.agents[b]) {
      assert LocalOk(skew, s, b, s.agents[b]);
    }
    assert forall i, j :: 0 <= i < j < n ==> Follows(skew, s.writes[i], s.writes[j]);
  }

  lemma OtherKeeps(skew: nat, s: System, step: Step)
    requires Inv(skew, s) && !step.Store?
    ensures Inv(skew, Next(skew, s, step))
  {
    var s' := Next(skew, s, step);
    assert s'.writes == s.writes && s'.store == s.store && s'.time >= s.time;
    forall b | b in s'.agents ensures LocalOk(skew, s', b, s'.agents[b]) {
      assert LocalOk(skew, s, b, s.agents[b]);
    }
  }

  lemma {:induction false} ExecKeeps(skew: nat, s: System, steps: seq<Step>)
    requires Init(s)
    ensures Inv(skew, Exec(skew, s, steps))
    decreases |steps|
  {
    if steps != [] {
      var before, step := Exec(skew, s, steps[..|steps| - 1]), steps[|steps| - 1];
      ExecKeeps(skew, s, steps[..|steps| - 1]);
      hide Inv, Init;
      if step.Store? {
        if step.who in before.agents && before.agents[step.who].Deciding?
           && Accepts(before.store, before.agents[step.who].action) {
          StoreKeeps(skew, before, step.who);
        }
      } else {
        OtherKeeps(skew, before, step);
      }
    }
  }

  /** Lease exclusion over every interleaving of any number of agents: of two successful writes by
      different agents, the later one's expiry check comes more than 30 s less two clock errors
      after the earlier one's clock reading, and the write itself not before the check. */
  lemma {:induction false} LeaseExclusion(skew: nat, s: System, steps: seq<Step>, i: nat, j: nat)
    requires Init(s)
    requires i < j < |Exec(skew, s, steps).writes|
    ensures var w, w' := Exec(skew, s, steps).writes[i], Exec(skew, s, steps).writes[j];
            w.at <= w'.checkAt <= w'.at && (w.who != w'.who ==> w'.checkAt - w.readAt > 30_000_000 - 2 * skew)
  {
    ExecKeeps(skew, s, steps);
    assert Follows(skew, Exec(skew, s, steps).writes[i], Exec(skew, s, steps).writes[j]);
  }

  /** With a shared clock: after a write that stores `renew`, no other agent writes the lease
      until more than 30 s after `renew`. */
  lemma {:induction false} SharedClock(s: System, steps: seq<Step>, i: nat, j: nat)
    requires Init(s)
    requires i < j < |Exec(0, s, steps).writes|
    ensures var w, w' := Exec(0, s, steps).writes[i], Exec(0, s, steps).writes[j];
            w.who != w'.who ==> w'.at > w.renew + 30_000_000
  {
    ExecKeeps(0, s, steps);
    LeaseExclusion(0, s, steps, i, j);
  }

  /** Renewing and taking over keep the acquire time once it is set. */
  lemma AcquireTimeKept(skew: nat, s: System, steps: seq<Step>, step: Step)
    requires Init(s)
    ensures var before, after := Exec(skew, s, steps).store, Next(skew, Exec(skew, s, steps), step).store;
            before.Some? && before.value.acquire.Some? ==> after.Some? && after.value.acquire == before.value.acquire
  {
    ExecKeeps(skew, s, steps);
    hide Exec;
    var t := Exec(skew, s, steps);
    if step.Store? && step.who in t.agents {
      assert LocalOk(skew, t, step.who, t.agents[step.who]);
    }
  }

  // ---------------------------------------------------------------- an expired lease is taken

  /** Another agent holds the lease `l` and it has not expired at the reading `check`. */
  predicate HeldByOther(me: Name, l: LeaseObj, check: int) {
    l.holder.Some? && l.holder.value != me && l.renew.Some? && check - l.renew.value <= TTL
  }

  predicate Concerns(step: Step, who: Name) {
    match step
    case Tick(_) => false
    case Start(w, _) => w == who
    case Fetch(w) => w == who
    case Check(w, _) => w == who
    case Store(w) => w == who
    case Fail(w) => w == who
  }

  lemma OthersStep(skew: nat, s: System, step: Step, who: Name)
    requires !Concerns(step, who)
    ensures var s' := Next(skew, s, step);
            && s.writes <= s'.writes && s.time <= s'.time && s.agents.Keys == s'.agents.Keys
            && (who in s.agents ==> s'.agents[who] == s.agents[who])
            && (s'.writes == s.writes ==> s'.store == s.store)
  {
  }

  /** What others do leaves an agent's attempt alone, and without a write also the lease. */
  lemma {:induction false} OthersRun(skew: nat, s: System, steps: seq<Step>, who: Name)
    requires forall i :: 0 <= i < |steps| ==> !Concerns(steps[i], who)
    ensures var s' := Exec(skew, s, steps);
            && s.writes <= s'.writes && s.time <= s'.time && s.agents.Keys == s'.agents.Keys
            && (who in s.agents ==> s'.agents[who] == s.agents[who])
            && (s'.writes == s.writes ==> s'.store == s.store)
    decreases |steps|
  {
    hide Next, Concerns;
    if steps != [] {
      var n := |steps| - 1;
      OthersRun(skew, s, steps[..n], who);
      OthersStep(skew, Exec(skew, s, steps[..n]), steps[n], who);
    }
  }

  /** One whole attempt of `who`, from whatever it was doing before, with the steps of others and
      the passing of time in between: `before` while it starts, `mid` after it fetched the lease,
      `last` after its check. */
  function AttemptRun(skew: nat, s: System, who: Name, now: int, before: seq<Step>, mid: seq<Step>, check: int,
                      last: seq<Step>): (r: (System, System, System, System))
  {
    var s1 := Exec(skew, Next(skew, Next(skew, s, Fail(who)), Start(who, now)), before);
    var s2 := Exec(skew, Next(skew, s1, Fetch(who)), mid);
    var s3 := Exec(skew, Next(skew, s2, Check(who, check)), last);
    (s1, s2, s3, Next(skew, s3, Store(who)))
  }

  ghost predicate OfOthers(steps: seq<Step>, who: Name) {
    forall i :: 0 <= i < |steps| ==> !Concerns(steps[i], who)
  }

  /** If nobody writes the lease between an agent's fetch and its write, the agent takes or renews
      it if and only if no other agent held it unexpired at the check; its write then stores its
      name and the clock reading from the start of the attempt. */
  lemma {:induction false} TakenExact(skew: nat, s: System, who: Name, now: int, before: seq<Step>, mid: seq<Step>,
                                      check: int, last: seq<Step>)
    requires who in s.agents && OfOthers(before, who) && OfOthers(mid, who) && OfOthers(last, who)
    requires var (s1, s2, s3, s4) := AttemptRun(skew, s, who, now, before, mid, check, last);
             Reading(skew, s.time, now) && Reading(skew, s2.time, check) && s3.writes == s1.writes
    ensures var (s1, s2, s3, s4) := AttemptRun(skew, s, who, now, before, mid, check, last);
            who in s4.agents && s4.agents[who].Off? &&
            if s1.store.Some? && HeldByOther(who, s1.store.value, check) then s4 == s3
            else
              && s4.writes == s3.writes + [Write(who, s.time, now, s2.time, s3.time)]
              && s4.store.Some? && s4.store.value.holder == Some(who) && s4.store.value.renew == Some(now)
              && s4.store.value.acquire ==
                   if s1.store.Some? && s1.store.value.acquire.Some? then s1.store.value.acquire else Some(now)
  {
    hide Exec;
    var (s1, s2, s3, s4) := AttemptRun(skew, s, who, now, before, mid, check, last);
    var a, b, c := Next(skew, Next(skew, s, Fail(who)), Start(who, now)), Next(skew, s1, Fetch(who)), Next(skew, s2, Check(who, check));
    OthersRun(skew, a, before, who);
    OthersRun(skew, b, mid, who);
    OthersRun(skew, c, last, who);
    assert s1.agents[who] == Started(now, s.time);
    assert s2.agents[who] == Fetched(now, s.time, s1.store);
    assert b.writes == s1.writes && b.store == s1.store && c.writes == s2.writes && c.store == s2.store;
    assert s2.writes == s1.writes;
    assert s2.store == s1.store && s3.store == s1.store;
  }

  /** Succession: whoever wrote the lease last, once more than 30 s and two clock errors have passed
      without a write, any agent that makes an attempt undisturbed by writes gets it. */
  lemma {:induction false} Succession(skew: nat, s: System, steps: seq<Step>, dt: nat, who: Name, now: int, check: int)
    requires Init(s) && who in s.agents && Exec(skew, s, steps).writes != [] && dt > 30_000_000 + 2 * skew
    requires var t := Next(skew, Exec(skew, s, steps), Tick(dt)); Reading(skew, t.time, now) && Reading(skew, t.time, check)
    ensures var t := Next(skew, Exec(skew, s, steps), Tick(dt));
            var t' := AttemptRun(skew, t, who, now, [], [], check, []).3;
            t'.store.Some? && t'.store.value.holder == Some(who) && t'.store.value.renew == Some(now)
            && |t'.writes| == |t.writes| + 1
  {
    ExecKeeps(skew, s, steps);
    AgentsStay(skew, s, steps);
    var u := Exec(skew, s, steps);
    var t := Next(skew, u, Tick(dt));
    var w := u.writes[|u.writes| - 1];
    assert w.readAt <= u.time && Reading(skew, w.readAt, w.renew);
    NoSteps(skew);
    TakenExact(skew, t, who, now, [], [], check, []);
  }

  lemma NoSteps(skew: nat)
    ensures forall s :: Exec(skew, s, []) == s
  {
  }

  lemma {:induction false} AgentsStay(skew: nat, s: System, steps: seq<Step>)
    ensures Exec(skew, s, steps).agents.Keys == s.agents.Keys
    decreases |steps|
  {
    if steps != [] {
      AgentsStay(skew, s, steps[..|steps| - 1]);
    }
  }

  // ---------------------------------------------------------------- one acquisition

  datatype GetReply = NotFound | Found(lease: LeaseObj) | GetError

  /** A write was stored, lost a race (already exists, or conflict), or failed otherwise. */
  datatype WriteReply = Stored | Raced | Refused

  /** The answers of the API server and of the clock, by attempt. */
  datatype Api = Api(now: nat -> int, get: nat -> GetReply, check: nat -> int, write: nat -> WriteReply)

  /** What the agent sends in attempt `i`. */
  function Attempt(me: Name, api: Api, i: nat): Action {
    match api.get(i)
    case NotFound => Decide(me, api.now(i), None, api.check(i))
    case Found(l) => Decide(me, api.now(i), Some(l), api.check(i))
    case GetError => GiveUp
  }

  /** The replies make the agent give up in attempt `i` without a write: the get failed, or the
      lease found is another agent's and has not expired. */
  predicate GivesUp(me: Name, api: Api, i: nat) {
    match api.get(i)
    case NotFound => false
    case Found(l) => HeldByOther(me, l, api.check(i))
    case GetError => true
  }

  predicate Wins(me: Name, api: Api, i: nat) {
    !GivesUp(me, api, i) && api.write(i).Stored?
  }

  predicate Races(me: Name, api: Api, i: nat) {
    !GivesUp(me, api, i) && api.write(i).Raced?
  }

  /** What the agent sends, by the reply to its get: a new lease, or the one found with its own
      name and clock reading, the acquire time kept if there is one. */
  lemma AttemptExact(me: Name, api: Api, i: nat)
    ensures var action, now := Attempt(me, api, i), Some(api.now(i));
            && (action.GiveUp? <==> GivesUp(me, api, i))
            && (api.get(i).NotFound? ==> action.Create? && action.lease.holder == Some(me)
                                         && action.lease.renew == now && action.lease.acquire == now)
            && (api.get(i).Found? && !action.GiveUp? ==>
                  var l := api.get(i).lease;
                  action.Update? && action.lease.version == l.version && action.lease.holder == Some(me)
                  && action.lease.renew == now && action.lease.acquire == if l.acquire.Some? then l.acquire else now)
  {
  }

  /** Attempt `k` writes the lease after all attempts before it lost a race. */
  ghost predicate FirstWin(me: Name, api: Api, k: nat) {
    Wins(me, api, k) && forall j: nat :: j < k ==> Races(me, api, j)
  }

  /** `acquireClusterPolicyLease` holds the lease exactly when one of its at most three attempts
      wrote it, every attempt before that one having lost a race. */
  method Acquire(namespace: string, me: Name, api: Api) returns (held: bool, wrote: Option<Action>)
    ensures held <==> namespace != "" && me != "" && exists k: nat :: k < 3 && FirstWin(me, api, k)
    ensures held <==> wrote.Some?
    ensures held ==> exists k: nat :: k < 3 && Wins(me, api, k) && wrote.value == Attempt(me, api, k)
  {
    wrote := None;
    if namespace == "" || me == "" {
      return false, None;
    }
    for i := 0 to 3
      invariant forall j: nat :: j < i ==> Races(me, api, j) && !Wins(me, api, j)
      invariant wrote.None?
    {
      var action := Attempt(me, api, i);
      AttemptExact(me, api, i);
      if action.GiveUp? {
        assert !Races(me, api, i) && !Wins(me, api, i);
        return false, None;
      }
      match api.write(i) {
        case Stored =>
          assert FirstWin(me, api, i);
          return true, Some(action);
        case Refused =>
          assert !Races(me, api, i);
          return false, None;
        case Raced =>
          assert Races(me, api, i) && !Wins(me, api, i);
      }
    }
    return false, None;
  }
}
