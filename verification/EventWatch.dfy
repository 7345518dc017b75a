/** The event input's list-and-watch protocol, seen from one namespace, over a server modelled as
    an append-only log of that namespace's versioned events.  Lists, watches, failures, disconnects,
    expired versions, a version saved by an earlier process, and whatever the other namespaces store
    in or clear from the shared version field may come in any order. */
module EventWatch {
  import opened Basics

  datatype Kind = Added | Modified | Deleted

  /** The stored event object; its payload does not matter. */
  type Obj = nat

  datatype Ev = Ev(version: nat, kind: Kind, obj: Obj)

  /** What goes into the queue. */
  datatype Item = Item(version: nat, obj: Obj)

  /** The server: its current version, over all namespaces, and the log of this one. */
  datatype Server = Server(head: nat, log: seq<Ev>)

  ghost predicate Rising(s: Server) {
    && (forall i :: 0 <= i < |s.log| ==> s.log[i].version <= s.head)
    && (forall i, j :: 0 <= i < j < |s.log| ==> s.log[i].version < s.log[j].version)
  }

  /** A stretch of uninterrupted progress, begun by a list, by connecting from a version that
      another namespace had stored, or by connecting without a version: the items enqueued of the
      list or of the state the server sent first, the version the stretch begins at, and the
      version of the last event enqueued since. */
  datatype Epoch = Epoch(items: seq<Item>, listed: nat, upTo: nat)

  /** The client is about to list; has read the field and waits for the reply; is about to watch;
      or watches, with `first` still to come of the state the server sends to a watch without a
      version, and then the log from position `next` on.  `initial` is true until the first list
      has succeeded, `retried` once the request has expired. */
  datatype Mode =
    | Listing(initial: bool)
    | Requesting(initial: bool, retried: bool, resume: bool, version: nat)
    | Apart
    | Connected(first: seq<Item>, next: nat)

  /** `last` is the field lastResourceVersion, shared by all namespaces, 0 when it is empty.
      `epochs` is the history. */
  datatype Client = Client(last: nat, mode: Mode, queued: seq<Item>, epochs: seq<Epoch>)

  datatype System = System(server: Server, client: Client)

  datatype Step =
    | Append(ev: Ev)
    | Elsewhere(version: nat)
    | Foreign(version: nat)
    | ReadVersion
    | RequestExpired
    | ListOk(at: nat, items: seq<Item>)
    | ListFails
    | Connect
    | ConnectFresh(from: nat, state: seq<Item>)
    | Receive
    | Disconnect
    | WatchExpired

  /** Position of the first log entry after `version`, from `i` on. */
  function After(log: seq<Ev>, version: nat, i: nat): (k: nat)
    requires i <= |log|
    ensures i <= k <= |log|
    ensures forall j :: i <= j < k ==> log[j].version <= version
    ensures k < |log| ==> log[k].version > version
    decreases |log| - i
  {
    if i < |log| && log[i].version <= version then After(log, version, i + 1) else i
  }

  /** The reply to a list.  Whether its items are enqueued was settled when the version field was
      read, or by the expiry of the request, whatever other namespaces have stored since. */
  function DoList(c: Client, at: nat, items: seq<Item>): Client
    requires c.mode.Requesting?
  {
    var taken := if c.mode.resume then [] else items;
    Client(at, Apart, c.queued + taken, c.epochs + [Epoch(taken, at, at)])
  }

  function DoConnect(c: Client, log: seq<Ev>): Client
    requires c.epochs != []
  {
    c.(mode := Connected([], After(log, c.last, 0)),
       epochs := if c.last == UpTo(c) then c.epochs else c.epochs + [Epoch([], c.last, c.last)])
  }

  /** A watch without a version: the server sends its present state first. */
  function DoConnectFresh(c: Client, log: seq<Ev>, from: nat, state: seq<Item>): Client {
    c.(mode := Connected(state, After(log, from, 0)), epochs := c.epochs + [Epoch([], from, from)])
  }

  function UpTo(c: Client): nat
    requires c.epochs != []
  {
    c.epochs[|c.epochs| - 1].upTo
  }

  /** Enqueues `it` and stores its version. */
  function Take(c: Client, it: Item, mode: Mode, epoch: Epoch): Client
    requires c.epochs != []
  {
    Client(it.version, mode, c.queued + [it], c.epochs[|c.epochs| - 1 := epoch])
  }

  function DoReceive(s: System): System {
    var c, log := s.client, s.server.log;
    if !c.mode.Connected? || c.epochs == [] then s
    else
      var k, e := c.mode.next, c.epochs[|c.epochs| - 1];
      if c.mode.first != [] then
        var it := c.mode.first[0];
        s.(client := Take(c, it, Connected(c.mode.first[1..], k), e.(items := e.items + [it])))
      else if k >= |log| then s
      else if log[k].kind.Deleted? then s.(client := c.(mode := Connected([], k + 1)))
      else
        s.(client := Take(c, Item(log[k].version, log[k].obj), Connected([], k + 1), e.(upTo := log[k].version)))
  }

  predicate Replies(s: System, at: nat) {
    s.client.mode.Requesting? && s.client.mode.version <= at <= s.server.head && at > 0
  }

  predicate SendsState(s: System, from: nat, state: seq<Item>) {
    && s.client.mode.Apart? && s.client.last == 0 && 0 < from <= s.server.head
    && forall i :: 0 <= i < |state| ==> 0 < state[i].version <= from
  }

  /** Steps that do not fit do nothing. */
  function Next(s: System, step: Step): System {
    var c := s.client;
    match step
    case Append(ev) =>
      if ev.version > s.server.head then s.(server := Server(ev.version, s.server.log + [ev])) else s
    case Elsewhere(version) => if version > s.server.head then s.(server := s.server.(head := version)) else s
    case Foreign(version) => if version <= s.server.head then s.(client := c.(last := version)) else s
    case ReadVersion =>
      if c.mode.Listing? then s.(client := c.(mode := Requesting(c.mode.initial, false, c.last != 0, c.last))) else s
    case RequestExpired =>
      if c.mode.Requesting? && !c.mode.retried
      then s.(client := c.(last := 0, mode := Requesting(c.mode.initial, true, false, 0))) else s
    case ListOk(at, items) => if Replies(s, at) then s.(client := DoList(c, at, items)) else s
    case ListFails =>
      if c.mode.Requesting? then s.(client := c.(mode := if c.mode.initial then Listing(true) else Apart)) else s
    case Connect =>
      if c.mode.Apart? && c.last != 0 && c.epochs != [] then s.(client := DoConnect(c, s.server.log)) else s
    case ConnectFresh(from, state) =>
      if SendsState(s, from, state) then s.(client := DoConnectFresh(c, s.server.log, from, state)) else s
    case Receive => DoReceive(s)
    case Disconnect => if c.mode.Connected? then s.(client := c.(mode := Apart)) else s
    case WatchExpired => if c.mode.Apart? then s.(client := c.(last := 0, mode := Listing(false))) else s
  }

  function Exec(s: System, steps: seq<Step>): System {
    if steps == [] then s else Next(Exec(s, steps[..|steps| - 1]), steps[|steps| - 1])
  }

  /** A start with the version `saved`, 0 for none. */
  function Boot(server: Server, saved: nat): System {
    System(server, Client(saved, Listing(true), [], []))
  }

  // ---------------------------------------------------------------- the reference

  /** The non-deletion events with version above `lo` and up to `hi`, in log order. */
  function Between(log: seq<Ev>, lo: nat, hi: nat): seq<Item> {
    if log == [] then []
    else
      var e := log[|log| - 1];
      Between(log[..|log| - 1], lo, hi) +
      if lo < e.version <= hi && !e.kind.Deleted? then [Item(e.version, e.obj)] else []
  }

  /** What the epochs so far must have put into the queue. */
  function Expected(log: seq<Ev>, epochs: seq<Epoch>): seq<Item> {
    if epochs == [] then []
    else
      var e := epochs[|epochs| - 1];
      Expected(log, epochs[..|epochs| - 1]) + (e.items + Between(log, e.listed, e.upTo))
  }

  // ---------------------------------------------------------------- the invariant

  ghost predicate EpochsOk(s: System) {
    forall i :: 0 <= i < |s.client.epochs| ==>
      0 < s.client.epochs[i].listed <= s.client.epochs[i].upTo <= s.server.head
  }

  ghost predicate Initial(m: Mode) {
    (m.Listing? || m.Requesting?) && m.initial
  }

  /** Whatever a connection has passed over since the last event enqueued was a deletion. */
  ghost predicate WatchOk(s: System) {
    var c := s.client;
    Initial(c.mode) ||
    (&& c.epochs != [] && c.last <= s.server.head
     && (c.mode.Connected? ==>
           && c.mode.next <= |s.server.log|
           && (c.mode.first != [] ==> c.epochs[|c.epochs| - 1].listed == UpTo(c))
           && (forall i :: 0 <= i < |c.mode.first| ==> 0 < c.mode.first[i].version <= s.server.head)
           && (forall i :: 0 <= i < c.mode.next ==> s.server.log[i].version <= UpTo(c) || s.server.log[i].kind.Deleted?)
           && (forall i :: c.mode.next <= i < |s.server.log| ==> s.server.log[i].version > UpTo(c))))
  }

  ghost predicate Inv(s: System) {
    Rising(s.server) && EpochsOk(s) && WatchOk(s) && s.client.queued == Expected(s.server.log, s.client.epochs)
  }

  // ---------------------------------------------------------------- lemmas on the reference

  /** Events above `hi` do not matter. */
  lemma {:induction false} BetweenIgnores(log: seq<Ev>, ev: Ev, lo: nat, hi: nat)
    requires ev.version > hi
    ensures Between(log + [ev], lo, hi) == Between(log, lo, hi)
  {
    assert (log + [ev])[..|log|] == log;
  }

  lemma {:induction false} ExpectedIgnores(log: seq<Ev>, ev: Ev, epochs: seq<Epoch>)
    requires forall i :: 0 <= i < |epochs| ==> epochs[i].upTo < ev.version
    ensures Expected(log + [ev], epochs) == Expected(log, epochs)
    decreases |epochs|
  {
    hide Between;
    if epochs != [] {
      var n := |epochs| - 1;
      ExpectedIgnores(log, ev, epochs[..n]);
      BetweenIgnores(log, ev, epochs[n].listed, epochs[n].upTo);
    }
  }

  /** Moving the end of the interval over deletions and one event at `k` adds that event. */
  lemma {:induction false} BetweenStep(log: seq<Ev>, lo: nat, hi: nat, k: nat)
    requires k < |log| && forall i, j :: 0 <= i < j < |log| ==> log[i].version < log[j].version
    requires lo <= hi < log[k].version && !log[k].kind.Deleted?
    requires forall i :: 0 <= i < k ==> log[i].version <= hi || log[i].kind.Deleted?
    ensures Between(log, lo, log[k].version) == Between(log, lo, hi) + [Item(log[k].version, log[k].obj)]
    decreases |log|
  {
    var n := |log| - 1;
    if k == n {
      BetweenSame(log[..n], lo, hi, log[k].version);
    } else {
      assert log[..n][k] == log[k];
      BetweenStep(log[..n], lo, hi, k);
    }
  }

  lemma {:induction false} BetweenSame(log: seq<Ev>, lo: nat, a: nat, b: nat)
    requires a <= b && forall i :: 0 <= i < |log| ==> log[i].version <= a || log[i].kind.Deleted?
    ensures Between(log, lo, a) == Between(log, lo, b)
    decreases |log|
  {
    if log != [] {
      BetweenSame(log[..|log| - 1], lo, a, b);
    }
  }

  lemma {:induction false} BetweenNone(log: seq<Ev>, v: nat)
    ensures Between(log, v, v) == []
    decreases |log|
  {
    if log != [] {
      BetweenNone(log[..|log| - 1], v);
    }
  }

  /** Consecutive intervals. */
  lemma {:induction false} BetweenSplit(log: seq<Ev>, a: nat, b: nat, c: nat)
    requires a <= b <= c && forall i, j :: 0 <= i < j < |log| ==> log[i].version < log[j].version
    ensures Between(log, a, c) == Between(log, a, b) + Between(log, b, c)
    decreases |log|
  {
    if log != [] {
      var n := |log| - 1;
      var log', e := log[..n], log[n];
      BetweenSplit(log', a, b, c);
      if e.version <= b {
        BetweenAbove(log', b, c);
        BetweenAbove(log, b, c);
      } else {
        assert Between(log, a, b) == Between(log', a, b) + [];
        Assoc(Between(log', a, b), Between(log', b, c), Between(log, a, c)[|Between(log', a, c)|..]);
      }
    }
  }

  lemma {:induction false} BetweenAbove(log: seq<Ev>, lo: nat, hi: nat)
    requires forall i :: 0 <= i < |log| ==> log[i].version <= lo
    ensures Between(log, lo, hi) == []
    decreases |log|
  {
    if log != [] {
      BetweenAbove(log[..|log| - 1], lo, hi);
    }
  }

  lemma ExpectedSnoc(log: seq<Ev>, epochs: seq<Epoch>, e: Epoch)
    ensures Expected(log, epochs + [e]) == Expected(log, epochs) + (e.items + Between(log, e.listed, e.upTo))
  {
    assert (epochs + [e])[..|epochs|] == epochs;
  }

  /** An interval that ends before it begins is empty. */
  lemma {:induction false} BetweenEmpty(log: seq<Ev>, lo: nat, hi: nat)
    requires lo <= hi
    ensures Between(log, hi, lo) == []
    decreases |log|
  {
    if log != [] {
      BetweenEmpty(log[..|log| - 1], lo, hi);
    }
  }

  // ---------------------------------------------------------------- steps

  lemma AppendKeeps(s: System, ev: Ev)
    requires Inv(s)
    ensures Inv(Next(s, Append(ev)))
  {
    hide Expected;
    if ev.version > s.server.head {
      ExpectedIgnores(s.server.log, ev, s.client.epochs);
    }
  }

  lemma ListKeeps(s: System, at: nat, items: seq<Item>)
    requires Inv(s)
    ensures Inv(Next(s, ListOk(at, items)))
  {
    hide Expected, Between, Rising;
    var c := s.client;
    if Replies(s, at) {
      var taken := if c.mode.resume then [] else items;
      ExpectedSnoc(s.server.log, c.epochs, Epoch(taken, at, at));
      BetweenNone(s.server.log, at);
      assert taken + [] == taken;
    }
  }

  /** Enqueuing `it` matches the change of the last epoch from `e` to `e'`. */
  lemma ExpectedTake(log: seq<Ev>, epochs: seq<Epoch>, e': Epoch, it: Item)
    requires epochs != []
    requires var e := epochs[|epochs| - 1];
             e'.items + Between(log, e'.listed, e'.upTo) == e.items + Between(log, e.listed, e.upTo) + [it]
    ensures Expected(log, epochs[|epochs| - 1 := e']) == Expected(log, epochs) + [it]
  {
    hide Expected, Between;
    var n := |epochs| - 1;
    var e := epochs[n];
    assert epochs == epochs[..n] + [e] && epochs[n := e'] == epochs[..n] + [e'];
    ExpectedSnoc(log, epochs[..n], e);
    ExpectedSnoc(log, epochs[..n], e');
    Assoc(Expected(log, epochs[..n]), e.items + Between(log, e.listed, e.upTo), [it]);
  }

  lemma ReceiveKeeps(s: System)
    requires Inv(s)
    ensures Inv(DoReceive(s))
  {
    hide Expected, Between;
    var c, log := s.client, s.server.log;
    if c.mode.Connected? {
      var k, e := c.mode.next, c.epochs[|c.epochs| - 1];
      if c.mode.first != [] {
        var it := c.mode.first[0];
        BetweenNone(log, e.listed);
        assert e.items + [it] + [] == e.items + [] + [it];
        ExpectedTake(log, c.epochs, e.(items := e.items + [it]), it);
      } else if k < |log| && !log[k].kind.Deleted? {
        var it := Item(log[k].version, log[k].obj);
        BetweenStep(log, e.listed, e.upTo, k);
        Assoc(e.items, Between(log, e.listed, e.upTo), [it]);
        ExpectedTake(log, c.epochs, e.(upTo := log[k].version), it);
      }
    }
  }

  /** Beginning a new epoch at `v`. */
  lemma EpochBegins(s: System, v: nat)
    requires EpochsOk(s) && 0 < v <= s.server.head
    ensures var more := s.client.epochs + [Epoch([], v, v)];
            && Expected(s.server.log, more) == Expected(s.server.log, s.client.epochs)
            && (forall c: Client :: c.epochs == more ==> EpochsOk(s.(client := c)))
  {
    hide Expected, Between;
    ExpectedSnoc(s.server.log, s.client.epochs, Epoch([], v, v));
    BetweenNone(s.server.log, v);
    assert [] + Between(s.server.log, v, v) == [];
  }

  lemma ConnectKeeps(s: System)
    requires Inv(s)
    ensures Inv(Next(s, Connect))
  {
    hide Expected, Between, After;
    var c, log := s.client, s.server.log;
    if c.mode.Apart? && c.last != 0 {
      AfterRises(log, c.last);
      hide EpochsOk, Rising;
      EpochBegins(s, c.last);
      EpochsSame(s);
      assert UpTo(DoConnect(c, log)) == c.last;
    }
  }

  lemma EpochsSame(s: System)
    requires EpochsOk(s)
    ensures forall c: Client :: c.epochs == s.client.epochs ==> EpochsOk(s.(client := c))
  {
  }

  lemma ConnectFreshKeeps(s: System, from: nat, state: seq<Item>)
    requires Inv(s)
    ensures Inv(Next(s, ConnectFresh(from, state)))
  {
    hide Expected, Between, After;
    var c, log := s.client, s.server.log;
    if SendsState(s, from, state) {
      AfterRises(log, from);
      hide EpochsOk, Rising;
      EpochBegins(s, from);
      assert UpTo(DoConnectFresh(c, log, from, state)) == from;
    }
  }

  lemma AfterRises(log: seq<Ev>, v: nat)
    requires forall i, j :: 0 <= i < j < |log| ==> log[i].version < log[j].version
    ensures forall i :: After(log, v, 0) <= i < |log| ==> log[i].version > v
  {
  }

  lemma NextKeeps(s: System, step: Step)
    requires Inv(s)
    ensures Inv(Next(s, step))
  {
    hide Expected, Between;
    match step
    case Append(ev) => AppendKeeps(s, ev);
    case ListOk(at, items) => ListKeeps(s, at, items);
    case Receive => ReceiveKeeps(s);
    case Connect => ConnectKeeps(s);
    case ConnectFresh(from, state) => ConnectFreshKeeps(s, from, state);
    case _ =>
  }

  lemma {:induction false} ExecKeeps(s: System, steps: seq<Step>)
    requires Inv(s)
    ensures Inv(Exec(s, steps))
    decreases |steps|
  {
    hide Inv, Next;
    if steps != [] {
      ExecKeeps(s, steps[..|steps| - 1]);
      NextKeeps(Exec(s, steps[..|steps| - 1]), steps[|steps| - 1]);
    }
  }

  /** Over every run, with any number of disconnects, failures, expiries and relists, and whatever
      other namespaces store in or clear from the version field: the queue received, epoch by
      epoch, the items of a list or of the server's state, followed by exactly the non-deletion
      events after the version the epoch began at, each once and in log order. */
  lemma {:induction false} WatchTheorem(server: Server, saved: nat, steps: seq<Step>)
    requires Rising(server)
    ensures var s := Exec(Boot(server, saved), steps);
            s.client.queued == Expected(s.server.log, s.client.epochs) && EpochsOk(s)
  {
    ExecKeeps(Boot(server, saved), steps);
  }

  // ---------------------------------------------------------------- one namespace without expiry

  /** No version expires and no other namespace touches the field. */
  ghost predicate CalmStep(step: Step) {
    !step.RequestExpired? && !step.WatchExpired? && !step.Foreign?
  }

  ghost predicate Calm(steps: seq<Step>) {
    forall i :: 0 <= i < |steps| ==> CalmStep(steps[i])
  }

  /** At most one epoch, begun by the only list; a resumed list enqueued nothing. */
  ghost predicate Single(c: Client, saved: nat) {
    if c.epochs == [] then
      && Initial(c.mode) && c.last == saved
      && (c.mode.Requesting? ==> c.mode == Requesting(true, false, saved != 0, saved))
    else
      && |c.epochs| == 1 && c.last == c.epochs[0].upTo
      && (c.mode.Apart? || (c.mode.Connected? && c.mode.first == []))
      && (saved != 0 ==> c.epochs[0].items == [] && saved <= c.epochs[0].listed)
  }

  lemma SingleKeeps(s: System, saved: nat, step: Step)
    requires Inv(s) && Single(s.client, saved) && CalmStep(step)
    ensures Single(Next(s, step).client, saved)
  {
    hide Expected;
  }

  lemma {:induction false} OneEpoch(server: Server, saved: nat, steps: seq<Step>)
    requires Rising(server) && Calm(steps)
    ensures Single(Exec(Boot(server, saved), steps).client, saved)
    decreases |steps|
  {
    hide Next, Single, CalmStep;
    if steps == [] {
      SingleStart(server, saved);
    } else {
      ExecKeeps(Boot(server, saved), steps[..|steps| - 1]);
      OneEpoch(server, saved, steps[..|steps| - 1]);
      hide Inv;
      SingleKeeps(Exec(Boot(server, saved), steps[..|steps| - 1]), saved, steps[|steps| - 1]);
    }
  }

  lemma SingleStart(server: Server, saved: nat)
    ensures Single(Boot(server, saved).client, saved)
  {
  }

  /** One namespace, no expiry, whatever the disconnects: everything ever enqueued is the listed
      items followed by the non-deletion events after the list version up to the last one seen. */
  lemma {:induction false} NoExpiryTheorem(server: Server, saved: nat, steps: seq<Step>)
    requires Rising(server) && Calm(steps)
    ensures var s := Exec(Boot(server, saved), steps);
            var c := s.client;
            if c.epochs == [] then c.queued == []
            else c.last == c.epochs[0].upTo
                 && c.queued == c.epochs[0].items + Between(s.server.log, c.epochs[0].listed, c.last)
  {
    ExecKeeps(Boot(server, saved), steps);
    OneEpoch(server, saved, steps);
    hide Exec, Between;
    var s := Exec(Boot(server, saved), steps);
    if s.client.epochs != [] {
      assert s.client.epochs == [] + [s.client.epochs[0]];
      ExpectedSnoc(s.server.log, [], s.client.epochs[0]);
    }
  }

  /** A restart from a saved version skips the events between that version and the one its list
      returns: nothing is lost if and only if there is no non-deletion event between the two. */
  lemma {:induction false} ResumeLoses(server: Server, saved: nat, steps: seq<Step>)
    requires Rising(server) && Calm(steps) && saved > 0
    requires Exec(Boot(server, saved), steps).client.epochs != []
    ensures var s := Exec(Boot(server, saved), steps);
            var listed := s.client.epochs[0].listed;
            && saved <= listed
            && (s.client.queued == Between(s.server.log, saved, s.client.last) <==>
                  Between(s.server.log, saved, listed) == [])
  {
    NoExpiryTheorem(server, saved, steps);
    OneEpoch(server, saved, steps);
    ExecKeeps(Boot(server, saved), steps);
    var s := Exec(Boot(server, saved), steps);
    hide Exec, Between;
    var listed := s.client.epochs[0].listed;
    BetweenSplit(s.server.log, saved, listed, s.client.last);
    var skipped, seen := Between(s.server.log, saved, listed), Between(s.server.log, listed, s.client.last);
    assert |skipped + seen| == |skipped| + |seen|;
    assert [] + seen == seen;
  }

  lemma ResumeLosesWitness(obj: Obj)
    ensures var s := Next(Next(Boot(Server(5, [Ev(3, Added, obj)]), 2), ReadVersion), ListOk(5, [Item(3, obj)]));
            s.client.queued == [] && s.client.last == 5 && Between(s.server.log, 2, 5) == [Item(3, obj)]
  {
    var log := [Ev(3, Added, obj)];
    assert Between(log, 2, 5) == Between([], 2, 5) + [Item(3, obj)];
  }

  // ---------------------------------------------------------------- several namespaces

  /** `t` goes on from a connection at version `v` that found `queued` in the queue: it has
      enqueued exactly the non-deletion events after `v`, and the events between `lo` and `hi`
      are still the same. */
  ghost predicate GoesOn(t: System, queued: seq<Item>, v: nat, lo: nat, hi: nat, gap: seq<Item>) {
    var c := t.client;
    && (c.mode.Apart? || (c.mode.Connected? && c.mode.first == []))
    && c.epochs != [] && c.last == UpTo(c) && 0 < v <= UpTo(c)
    && c.queued == queued + Between(t.server.log, v, UpTo(c))
    && lo <= hi <= t.server.head && Between(t.server.log, lo, hi) == gap
  }

  lemma GoesOnKeeps(t: System, step: Step, queued: seq<Item>, v: nat, lo: nat, hi: nat, gap: seq<Item>)
    requires Inv(t) && GoesOn(t, queued, v, lo, hi, gap) && CalmStep(step)
    ensures GoesOn(Next(t, step), queued, v, lo, hi, gap)
  {
    hide Expected, Between, After;
    var c, log := t.client, t.server.log;
    match step
    case Append(ev) =>
      if ev.version > t.server.head {
        BetweenIgnores(log, ev, lo, hi);
        BetweenIgnores(log, ev, v, UpTo(c));
      }
    case Receive =>
      if c.mode.Connected? && c.mode.next < |log| && !log[c.mode.next].kind.Deleted? {
        var k := c.mode.next;
        BetweenStep(log, v, UpTo(c), k);
        Assoc(queued, Between(log, v, UpTo(c)), [Item(log[k].version, log[k].obj)]);
      }
    case _ =>
  }

  lemma {:induction false} GoesOnExec(t: System, steps: seq<Step>, queued: seq<Item>, v: nat, lo: nat, hi: nat,
                                      gap: seq<Item>)
    requires Inv(t) && GoesOn(t, queued, v, lo, hi, gap) && Calm(steps)
    ensures GoesOn(Exec(t, steps), queued, v, lo, hi, gap)
    decreases |steps|
  {
    hide Inv, Next, GoesOn, CalmStep;
    if steps != [] {
      ExecKeeps(t, steps[..|steps| - 1]);
      GoesOnExec(t, steps[..|steps| - 1], queued, v, lo, hi, gap);
      GoesOnKeeps(Exec(t, steps[..|steps| - 1]), steps[|steps| - 1], queued, v, lo, hi, gap);
    }
  }

  lemma ConnectGoesOn(s: System, lo: nat, hi: nat)
    requires Inv(s) && s.client.mode.Apart? && s.client.last != 0 && lo <= hi <= s.server.head
    ensures GoesOn(Next(s, Connect), s.client.queued, s.client.last, lo, hi, Between(s.server.log, lo, hi))
  {
    hide Expected, Between, After;
    BetweenNone(s.server.log, s.client.last);
    assert s.client.queued + [] == s.client.queued;
  }

  /** Events up to `lo` and from `hi` on aside, what lies after `hi` is what lies after `lo` if and
      only if nothing lies between the two. */
  lemma GapExact(log: seq<Ev>, queued: seq<Item>, lo: nat, hi: nat, v: nat)
    requires lo <= hi <= v && forall i, j :: 0 <= i < j < |log| ==> log[i].version < log[j].version
    ensures queued + Between(log, hi, v) == queued + Between(log, lo, v) <==> Between(log, lo, hi) == []
  {
    hide Between;
    BetweenSplit(log, lo, hi, v);
    var gap, later := Between(log, lo, hi), Between(log, hi, v);
    assert |queued + later| == |queued| + |later|;
    assert |queued + (gap + later)| == |queued| + |gap| + |later|;
    assert gap == [] ==> gap + later == later;
  }

  /** When this namespace connects again after the field has come to hold some version, its own or
      another namespace's, everything enqueued from then on, over every continuation without
      expiry or another store, is exactly the non-deletion events after that version.  Once both
      versions are passed this is what was due, the events after the last one it had enqueued, if
      and only if there is no non-deletion event between the two: a later version skips those
      events, an earlier one repeats them. */
  lemma {:induction false} SharedVersionExact(server: Server, saved: nat, steps: seq<Step>, more: seq<Step>)
    requires Rising(server) && Calm(more)
    requires Exec(Boot(server, saved), steps).client.mode.Apart? && Exec(Boot(server, saved), steps).client.last != 0
    ensures var s := Exec(Boot(server, saved), steps);
            var t, v := Exec(Next(s, Connect), more), s.client.last;
            && s.client.epochs != [] && t.client.epochs != []
            && var u, w, log := UpTo(s.client), UpTo(t.client), t.server.log;
            && v <= w && t.client.queued == s.client.queued + Between(log, v, w)
            && (u <= w ==>
                  (t.client.queued == s.client.queued + Between(log, u, w) <==>
                     Between(s.server.log, u, v) == [] && Between(s.server.log, v, u) == []))
  {
    ExecKeeps(Boot(server, saved), steps);
    var s := Exec(Boot(server, saved), steps);
    hide Exec, Between, Expected, Calm;
    var v, u := s.client.last, UpTo(s.client);
    var lo, hi := if v < u then v else u, if v < u then u else v;
    var gap := Between(s.server.log, lo, hi);
    ConnectGoesOn(s, lo, hi);
    ConnectKeeps(s);
    hide Next;
    GoesOnExec(Next(s, Connect), more, s.client.queued, v, lo, hi, gap);
    var t := Exec(Next(s, Connect), more);
    ExecKeeps(Next(s, Connect), more);
    BetweenEmpty(s.server.log, lo, hi);
    if u <= UpTo(t.client) {
      GapExact(t.server.log, s.client.queued, lo, hi, UpTo(t.client));
    }
  }

  /** A first list at version 1 on an empty log. */
  function Listed(): System {
    Next(Next(Boot(Server(1, []), 0), ReadVersion), ListOk(1, []))
  }

  /** A run in which an event is lost that way: listed at version 1, the event at 2 is passed over
      because another namespace has stored 3. */
  lemma LaterVersionLoses(obj: Obj)
    ensures var s := Next(Next(Next(Listed(), Append(Ev(2, Added, obj))), Elsewhere(3)), Foreign(3));
            var s' := Next(s, Connect);
            && s'.client.queued == [] && s'.client.mode == Connected([], 1) && s'.server.log == [Ev(2, Added, obj)]
            && Between(s.server.log, UpTo(s.client), s.client.last) == [Item(2, obj)]
  {
    var log := [Ev(2, Added, obj)];
    assert [] + log == log;
    assert After(log, 3, 1) == 1 && After(log, 3, 0) == 1;
    assert Between(log, 1, 3) == Between([], 1, 3) + [Item(2, obj)];
  }

  /** And one in which an event is enqueued twice: the event at 5 was received, and connecting
      again begins at the version 3 that another namespace has stored meanwhile. */
  lemma EarlierVersionRepeats(obj: Obj)
    ensures var s := Next(Next(Next(Listed(), Connect), Append(Ev(5, Added, obj))), Receive);
            var s' := Next(Next(Next(Next(s, Disconnect), Foreign(3)), Connect), Receive);
            && s.client.queued == [Item(5, obj)] && s'.client.queued == [Item(5, obj), Item(5, obj)]
  {
    var log, it := [Ev(5, Added, obj)], Item(5, obj);
    assert [] + log == log && [] + [it] == [it] && [Epoch([], 1, 1)] == [] + [Epoch([], 1, 1)];
    var s := Next(Next(Next(Listed(), Connect), Append(Ev(5, Added, obj))), Receive);
    assert s == System(Server(5, log), Client(5, Connected([], 1), [it], [Epoch([], 1, 5)]));
    RepeatsStep(s, obj);
  }

  lemma RepeatsStep(s: System, obj: Obj)
    requires s == System(Server(5, [Ev(5, Added, obj)]), Client(5, Connected([], 1), [Item(5, obj)], [Epoch([], 1, 5)]))
    ensures var s' := Next(Next(Next(Next(s, Disconnect), Foreign(3)), Connect), Receive);
            s'.client.queued == [Item(5, obj), Item(5, obj)]
  {
    var log := [Ev(5, Added, obj)];
    assert After(log, 3, 0) == 0;
    var c := Client(3, Connected([], 0), [Item(5, obj)], [Epoch([], 1, 5), Epoch([], 3, 3)]);
    assert [Epoch([], 1, 5)] + [Epoch([], 3, 3)] == c.epochs;
    assert Next(Next(Next(s, Disconnect), Foreign(3)), Connect) == System(Server(5, log), c);
    assert [Item(5, obj)] + [Item(5, obj)] == [Item(5, obj), Item(5, obj)];
  }

  // ---------------------------------------------------------------- a connection catches up

  function Receives(s: System, n: nat): System
    decreases n
  {
    if n == 0 then s else Receives(Next(s, Receive), n - 1)
  }

  /** Receiving what is left of the log, deletions passed over. */
  lemma {:induction false} ReceivesLog(s: System, queued: seq<Item>, v: nat)
    requires Inv(s) && s.client.mode.Connected? && s.client.mode.first == [] && v <= UpTo(s.client)
    requires s.client.queued == queued + Between(s.server.log, v, UpTo(s.client))
    ensures var s' := Receives(s, |s.server.log| - s.client.mode.next);
            && s'.server == s.server && s'.client.mode == Connected([], |s.server.log|)
            && s'.client.queued == queued + Between(s.server.log, v, s.server.head)
    decreases |s.server.log| - s.client.mode.next
  {
    hide Expected, Between, EpochsOk;
    var c, log := s.client, s.server.log;
    var k := c.mode.next;
    if k == |log| {
      UpToInside(s);
      BetweenSame(log, v, UpTo(c), s.server.head);
    } else {
      ReceiveKeeps(s);
      if !log[k].kind.Deleted? {
        BetweenStep(log, v, UpTo(c), k);
        Assoc(queued, Between(log, v, UpTo(c)), [Item(log[k].version, log[k].obj)]);
      }
      hide Inv;
      ReceivesLog(Next(s, Receive), queued, v);
    }
  }

  lemma UpToInside(s: System)
    requires Inv(s) && s.client.epochs != []
    ensures UpTo(s.client) <= s.server.head
  {
    hide Expected, Between;
  }

  /** A connection from a version brings, when everything is received, exactly the non-deletion
      events after it. */
  lemma {:induction false} WatchCatchesUp(s: System)
    requires Inv(s) && s.client.mode.Apart? && s.client.last != 0
    ensures var t := Next(s, Connect);
            && t.client.mode.Connected? && t.client.mode.next <= |s.server.log|
            && var s' := Receives(t, |s.server.log| - t.client.mode.next);
            && s'.client.mode == Connected([], |s.server.log|)
            && s'.client.queued == s.client.queued + Between(s.server.log, s.client.last, s.server.head)
  {
    hide Expected, Between, After;
    ConnectKeeps(s);
    BetweenNone(s.server.log, s.client.last);
    assert s.client.queued + [] == s.client.queued;
    ReceivesLog(Next(s, Connect), s.client.queued, s.client.last);
  }

  /** Receiving the state the server sends first. */
  lemma {:induction false} ReceivesState(s: System)
    requires Inv(s) && s.client.mode.Connected?
    ensures var s' := Receives(s, |s.client.mode.first|);
            && Inv(s') && s'.server == s.server && s'.client.mode == Connected([], s.client.mode.next)
            && s'.client.queued == s.client.queued + s.client.mode.first && s'.client.epochs != []
            && UpTo(s'.client) == UpTo(s.client)
    decreases |s.client.mode.first|
  {
    var first := s.client.mode.first;
    if first == [] {
      assert s.client.queued + first == s.client.queued;
    } else {
      ReceiveKeeps(s);
      var t := Next(s, Receive);
      assert t.client.queued == s.client.queued + [first[0]] && t.client.mode.first == first[1..];
      hide Inv;
      ReceivesState(t);
      Assoc(s.client.queued, [first[0]], first[1..]);
      assert [first[0]] + first[1..] == first;
    }
  }

  /** A connection without a version brings the state of the server and then the non-deletion
      events after it. */
  lemma {:induction false} FreshWatchCatchesUp(s: System, from: nat, state: seq<Item>)
    requires Inv(s) && SendsState(s, from, state)
    ensures var t := Next(s, ConnectFresh(from, state));
            && t.client.mode.Connected? && t.client.mode.first == state && t.client.mode.next <= |s.server.log|
            && var s' := Receives(Receives(t, |state|), |s.server.log| - t.client.mode.next);
            && s'.client.mode == Connected([], |s.server.log|)
            && s'.client.queued == s.client.queued + state + Between(s.server.log, from, s.server.head)
  {
    hide Expected, Between, After;
    ConnectFreshKeeps(s, from, state);
    var t := Next(s, ConnectFresh(from, state));
    ReceivesState(t);
    var u := Receives(t, |state|);
    BetweenNone(s.server.log, from);
    assert s.client.queued + state + [] == s.client.queued + state;
    hide Receives;
    ReceivesLog(u, s.client.queued + state, from);
  }

  /** After an expiry in the watch the client lists; if that fails it watches again, without a
      version unless another namespace has stored one. */
  lemma FailedRelist(s: System, version: nat)
    requires s.client.mode.Apart? && 0 < version <= s.server.head
    ensures var listing := Next(s, WatchExpired);
            && listing.client.mode == Listing(false)
            && Next(Next(listing, ReadVersion), ListFails) == s.(client := s.client.(last := 0))
            && Next(Next(Next(listing, ReadVersion), Foreign(version)), ListFails) == s.(client := s.client.(last := version))
  {
  }

  /** A first list that fails is tried again. */
  lemma FailedFirstList(server: Server, saved: nat)
    ensures Next(Next(Boot(server, saved), ReadVersion), ListFails) == Boot(server, saved)
  {
  }

  // ---------------------------------------------------------------- when a list is enqueued

  /** By the step this or another namespace clears the version field. */
  ghost predicate Clears(s: System, step: Step) {
    match step
    case Foreign(version) => version == 0
    case RequestExpired => Expires(s, step)
    case WatchExpired => s.client.mode.Apart?
    case _ => false
  }

  /** By the step this or another namespace stores a version in it. */
  ghost predicate Stores(s: System, step: Step) {
    var m := s.client.mode;
    match step
    case Foreign(version) => 0 < version <= s.server.head
    case ListOk(at, _) => Replies(s, at)
    case Receive =>
      m.Connected? && (m.first != [] || (m.next < |s.server.log| && !s.server.log[m.next].kind.Deleted?))
    case _ => false
  }

  /** The step reads the field to list. */
  ghost predicate Starts(s: System, step: Step) {
    step.ReadVersion? && s.client.mode.Listing?
  }

  /** The server answers the request that its version has expired. */
  ghost predicate Expires(s: System, step: Step) {
    step.RequestExpired? && s.client.mode.Requesting? && !s.client.mode.retried
  }

  /** The field is empty: since a start without a saved version, or since some namespace cleared
      it, no namespace has stored a version. */
  ghost predicate Empty(s: System, steps: seq<Step>) {
    exists d :: 0 <= d <= |steps| && EmptySince(s, steps, d)
  }

  ghost predicate EmptySince(s: System, steps: seq<Step>, d: nat)
    requires d <= |steps|
  {
    && (if d == 0 then s.client.last == 0 else Clears(Exec(s, steps[..d - 1]), steps[d - 1]))
    && forall i :: d <= i < |steps| ==> !Stores(Exec(s, steps[..i]), steps[i])
  }

  lemma EmptySinceSnoc(s: System, steps: seq<Step>, d: nat)
    requires steps != [] && d <= |steps|
    ensures var n := |steps| - 1;
            EmptySince(s, steps, d) <==>
              if d == |steps| then Clears(Exec(s, steps[..n]), steps[n])
              else EmptySince(s, steps[..n], d) && !Stores(Exec(s, steps[..n]), steps[n])
  {
    hide Exec, Clears, Stores;
    var n := |steps| - 1;
    assert forall i :: 0 <= i <= n ==> steps[..n][..i] == steps[..i];
    assert forall i :: 0 <= i < n ==> steps[..n][i] == steps[i];
  }

  lemma EmptySnoc(s: System, steps: seq<Step>)
    requires steps != []
    ensures var n := |steps| - 1;
            Empty(s, steps) <==>
              || Clears(Exec(s, steps[..n]), steps[n])
              || (Empty(s, steps[..n]) && !Stores(Exec(s, steps[..n]), steps[n]))
  {
    hide Exec, Clears, Stores, EmptySince;
    var n := |steps| - 1;
    forall d: nat | d <= |steps|
      ensures EmptySince(s, steps, d) <==>
              if d == |steps| then Clears(Exec(s, steps[..n]), steps[n])
              else EmptySince(s, steps[..n], d) && !Stores(Exec(s, steps[..n]), steps[n])
    {
      EmptySinceSnoc(s, steps, d);
    }
    if Clears(Exec(s, steps[..n]), steps[n]) {
      assert EmptySince(s, steps, n + 1);
    }
    if d: nat :| d <= n && EmptySince(s, steps[..n], d) {
      assert EmptySince(s, steps, d) <==> !Stores(Exec(s, steps[..n]), steps[n]);
    }
  }

  lemma FieldStep(s: System, step: Step)
    requires Inv(s)
    ensures Next(s, step).client.last == 0 <==> Clears(s, step) || (s.client.last == 0 && !Stores(s, step))
  {
    hide Expected;
  }

  lemma EmptyStart(s: System)
    ensures Empty(s, []) <==> s.client.last == 0
  {
    assert EmptySince(s, [], 0) <==> s.client.last == 0;
  }

  /** The field, over every run. */
  lemma {:induction false} FieldExact(s: System, steps: seq<Step>)
    requires Inv(s)
    ensures Exec(s, steps).client.last == 0 <==> Empty(s, steps)
    decreases |steps|
  {
    hide Next, Clears, Stores, Empty, Inv;
    if steps == [] {
      EmptyStart(s);
    } else {
      var n := |steps| - 1;
      ExecKeeps(s, steps[..n]);
      FieldExact(s, steps[..n]);
      FieldStep(Exec(s, steps[..n]), steps[n]);
      EmptySnoc(s, steps);
    }
  }

  /** The request now under way was begun by step `r`. */
  ghost predicate CallFrom(s: System, steps: seq<Step>, r: nat) {
    && r < |steps| && Starts(Exec(s, steps[..r]), steps[r])
    && forall i :: r < i < |steps| ==> !Starts(Exec(s, steps[..i]), steps[i])
  }

  /** And the server has answered since that its version has expired. */
  ghost predicate ExpiredSince(s: System, steps: seq<Step>, r: nat) {
    exists i :: r < i < |steps| && Expires(Exec(s, steps[..i]), steps[i])
  }

  lemma CallSnoc(s: System, steps: seq<Step>, r: nat)
    requires steps != []
    ensures var n := |steps| - 1;
            && (CallFrom(s, steps, r) <==>
                  if r == n then Starts(Exec(s, steps[..n]), steps[n])
                  else CallFrom(s, steps[..n], r) && !Starts(Exec(s, steps[..n]), steps[n]))
            && (r < n ==> (ExpiredSince(s, steps, r) <==>
                             ExpiredSince(s, steps[..n], r) || Expires(Exec(s, steps[..n]), steps[n])))
            && (r == n ==> !ExpiredSince(s, steps, r))
            && (r < n ==> steps[..n][..r] == steps[..r])
  {
    hide Exec, Starts, Expires;
    var n := |steps| - 1;
    assert forall i :: 0 <= i <= n ==> steps[..n][..i] == steps[..i];
    assert forall i :: 0 <= i < n ==> steps[..n][i] == steps[i];
    if i :| r < i < n && Expires(Exec(s, steps[..n][..i]), steps[..n][i]) {
      assert Expires(Exec(s, steps[..i]), steps[i]);
    }
  }

  /** One step, seen from a request under way after it. */
  lemma RequestStep(s: System, step: Step)
    requires Next(s, step).client.mode.Requesting?
    ensures var m, m' := s.client.mode, Next(s, step).client.mode;
            if Starts(s, step) then m'.resume == (s.client.last != 0)
            else m.Requesting? && m'.resume == (m.resume && !Expires(s, step))
  {
  }

  lemma {:induction false} RequestExact(s: System, steps: seq<Step>)
    requires s.client.mode.Listing? && Exec(s, steps).client.mode.Requesting?
    ensures exists r: nat :: CallFrom(s, steps, r)
    ensures forall r: nat :: CallFrom(s, steps, r) ==>
              (Exec(s, steps).client.mode.resume <==>
                 Exec(s, steps[..r]).client.last != 0 && !ExpiredSince(s, steps, r))
    decreases |steps|
  {
    hide Next, Starts, Expires, CallFrom, ExpiredSince;
    if steps != [] {
      var n := |steps| - 1;
      var before := Exec(s, steps[..n]);
      RequestStep(before, steps[n]);
      forall r: nat
        ensures CallFrom(s, steps, r) <==>
                  if r == n then Starts(before, steps[n]) else CallFrom(s, steps[..n], r) && !Starts(before, steps[n])
        ensures r < n ==> (ExpiredSince(s, steps, r) <==> ExpiredSince(s, steps[..n], r) || Expires(before, steps[n]))
        ensures r == n ==> !ExpiredSince(s, steps, r)
        ensures r < n ==> steps[..n][..r] == steps[..r]
        ensures CallFrom(s, steps[..n], r) ==> r < n
      {
        CallSnoc(s, steps, r);
        CallInside(s, steps[..n], r);
      }
      if Starts(before, steps[n]) {
        assert CallFrom(s, steps, n);
      } else {
        RequestExact(s, steps[..n]);
        var r: nat :| CallFrom(s, steps[..n], r);
        assert CallFrom(s, steps, r);
      }
    }
  }

  lemma CallInside(s: System, steps: seq<Step>, r: nat)
    ensures CallFrom(s, steps, r) ==> r < |steps|
  {
  }

  /** Over every run, whenever the reply to a list comes: the list was begun by some step `r`, and
      its items are enqueued if and only if the field was empty when that step read it, by the
      stores and clears of all namespaces up to then, or the request has expired since; what other
      namespaces have stored in the meantime does not matter. */
  lemma {:induction false} ListEnqueues(server: Server, saved: nat, steps: seq<Step>, at: nat, items: seq<Item>)
    requires Rising(server) && Replies(Exec(Boot(server, saved), steps), at)
    ensures var b := Boot(server, saved);
            var s := Exec(b, steps);
            && (exists r: nat :: CallFrom(b, steps, r))
            && forall r: nat :: CallFrom(b, steps, r) ==>
                 Next(s, ListOk(at, items)).client.queued
                   == s.client.queued + if Empty(b, steps[..r]) || ExpiredSince(b, steps, r) then items else []
  {
    var b := Boot(server, saved);
    RequestExact(b, steps);
    hide Exec, Empty, ExpiredSince, CallFrom;
    forall r: nat | CallFrom(b, steps, r) ensures Exec(b, steps[..r]).client.last == 0 <==> Empty(b, steps[..r]) {
      FieldExact(b, steps[..r]);
    }
  }

  /** On a first start of two namespaces it is a matter of timing: the items of the second are
      enqueued if it read the field before the first stored its version, and not after. */
  lemma TwoNamespaces(server: Server, version: nat, at: nat, items: seq<Item>)
    requires 0 < version <= at <= server.head
    ensures var b := Boot(server, 0);
            && Next(Next(Next(b, ReadVersion), Foreign(version)), ListOk(at, items)).client.queued == items
            && Next(Next(Next(b, Foreign(version)), ReadVersion), ListOk(at, items)).client.queued == []
  {
  }
}
