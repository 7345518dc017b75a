/** The pipeline runner: read, transform, write with retries, commit, and drain on shutdown.

    Time is the number of answers the environment has given.  `read(t)` is what the input
    returns when asked at time `t`, `accepts(t)` whether the output takes a write at time `t`;
    the run context is done from `stop` on and the drain context from `expireAt` on.  Every
    finite run is one such environment and stop time; the input may go on returning records when
    a context is done, as the event input can, and falls silent at some time of its own. */
module Runner {
  import opened Basics
  import opened Transforms

  datatype Read = Failed | Got(records: seq<Record>)

  datatype Env = Env(read: nat -> Read, accepts: nat -> bool, expireAt: nat, quietFrom: nat)

  /** The input falls silent at some time, whatever the contexts, so that the drain ends. */
  ghost predicate Quiet(e: Env) {
    forall t :: t >= e.quietFrom ==> e.read(t).Failed? || e.read(t).records == []
  }

  /** And it never returns more records than it is asked for. */
  ghost predicate Sound(e: Env, batchLen: nat) {
    && Quiet(e)
    && (forall t :: e.read(t).Got? ==> |e.read(t).records| <= batchLen)
  }

  /** What became of one batch read from the input. */
  datatype Outcome =
    | Acked(batch: seq<Record>)
    | Filtered(batch: seq<Record>)
    | Abandoned(batch: seq<Record>)

  datatype Phase = Phase(outs: seq<Outcome>, t: nat, ok: bool)

  // ---------------------------------------------------------------- what a run does

  /** `writeBatch` from time `t` under a context done from `done` on: whether the batch was taken,
      and the time afterwards. */
  function Write(e: Env, done: nat, t: nat): (r: (bool, nat))
    ensures r.1 > t
    ensures !r.0 ==> r.1 > done
    ensures r.0 == e.accepts(r.1 - 1) && forall u :: t <= u < r.1 - 1 ==> !e.accepts(u)
    decreases done - t
  {
    if e.accepts(t) then (true, t + 1)
    else if t >= done then (false, t + 1)
    else Write(e, done, t + 1)
  }

  /** One round of either loop: the read failed, returned nothing, or gave a batch that was
      transformed and written. */
  datatype Round = Broken | Empty | Did(o: Outcome)

  function OneRound(e: Env, ts: seq<Transform>, done: nat, t: nat): (r: (Round, nat))
    ensures r.1 > t
    ensures r.0.Did? ==> e.read(t) == Got(r.0.o.batch) && r.0.o.batch != []
    ensures r.0.Did? && r.0.o.Filtered? ==> Chain(ts, r.0.o.batch) == []
  {
    match e.read(t)
    case Failed => (Broken, t + 1)
    case Got(rs) =>
      if rs == [] then (Empty, t + 1)
      else if Chain(ts, rs) == [] then (Did(Filtered(rs)), t + 1)
      else
        var (ok, t1) := Write(e, done, t + 1);
        (Did(if ok then Acked(rs) else Abandoned(rs)), t1)
  }

  /** The main loop; `ok` is false when it ended by abandoning a batch. */
  function MainLoop(e: Env, stop: nat, ts: seq<Transform>, t: nat): (p: Phase)
    decreases stop - t
  {
    if t >= stop then Phase([], t, true)
    else
      var (round, t1) := OneRound(e, ts, stop, t);
      match round
      case Broken => Phase([], t1, true)
      case Empty => MainLoop(e, stop, ts, t1)
      case Did(o) => if o.Abandoned? then Phase([o], t1, false) else Prepend(o, MainLoop(e, stop, ts, t1))
  }

  function Prepend(o: Outcome, p: Phase): (q: Phase)
    ensures q.t == p.t && q.ok == p.ok
  {
    p.(outs := [o] + p.outs)
  }

  /** The drain loop of `shutdown`; `ok` is the flag `drained`. */
  function DrainLoop(e: Env, ts: seq<Transform>, t: nat): (p: Phase)
    requires Quiet(e)
    decreases e.quietFrom - t
  {
    var (round, t1) := OneRound(e, ts, e.expireAt, t);
    match round
    case Broken => Phase([], t1, false)
    case Empty => Phase([], t1, t1 < e.expireAt)
    case Did(o) => if o.Abandoned? then Phase([o], t1, false) else Prepend(o, DrainLoop(e, ts, t1))
  }

  datatype WholeRun = WholeRun(main: Phase, drain: Phase)

  function RunSpec(e: Env, stop: nat, ts: seq<Transform>): WholeRun
    requires Quiet(e)
  {
    var m := MainLoop(e, stop, ts, 0);
    WholeRun(m, DrainLoop(e, ts, m.t))
  }

  // ---------------------------------------------------------------- histories

  function Batches(outs: seq<Outcome>): seq<seq<Record>> {
    if outs == [] then [] else [outs[0].batch] + Batches(outs[1..])
  }

  /** The batches that were not abandoned. */
  function Handled(outs: seq<Outcome>): seq<seq<Record>> {
    if outs == [] then [] else (if outs[0].Abandoned? then [] else [outs[0].batch]) + Handled(outs[1..])
  }

  function Lost(outs: seq<Outcome>): seq<seq<Record>> {
    if outs == [] then [] else (if outs[0].Abandoned? then [outs[0].batch] else []) + Lost(outs[1..])
  }

  /** What one outcome contributed to the output. */
  function Share(ts: seq<Transform>, o: Outcome): seq<Record> {
    if o.Acked? then Chain(ts, o.batch) else []
  }

  /** The records the output acknowledged, in order. */
  function Delivered(ts: seq<Transform>, outs: seq<Outcome>): seq<Record> {
    if outs == [] then [] else Share(ts, outs[0]) + Delivered(ts, outs[1..])
  }

  /** A batch is called filtered only if the chain leaves nothing of it. */
  ghost predicate Honest(ts: seq<Transform>, outs: seq<Outcome>) {
    forall i :: 0 <= i < |outs| && outs[i].Filtered? ==> Chain(ts, outs[i].batch) == []
  }

  /** Only the last batch of a phase can be abandoned. */
  ghost predicate LastOnly(outs: seq<Outcome>) {
    forall i :: 0 <= i < |outs| - 1 ==> !outs[i].Abandoned?
  }

  ghost predicate Short(outs: seq<Outcome>, batchLen: nat) {
    forall i :: 0 <= i < |outs| ==> |outs[i].batch| <= batchLen
  }

  ghost predicate Fair(ts: seq<Transform>, outs: seq<Outcome>, batchLen: nat) {
    Honest(ts, outs) && LastOnly(outs) && Short(outs, batchLen)
  }

  lemma FairEnds(ts: seq<Transform>, batch: seq<Record>, batchLen: nat)
    requires |batch| <= batchLen
    ensures Fair(ts, [], batchLen) && Lost([]) == []
    ensures Fair(ts, [Abandoned(batch)], batchLen) && Lost([Abandoned(batch)]) == [batch]
  {
    assert Lost([Abandoned(batch)]) == [batch] + Lost([]);
  }

  lemma FairPrepend(o: Outcome, p: Phase, ts: seq<Transform>, batchLen: nat)
    requires !o.Abandoned? && (o.Filtered? ==> Chain(ts, o.batch) == []) && |o.batch| <= batchLen
    requires Fair(ts, p.outs, batchLen)
    ensures Fair(ts, Prepend(o, p).outs, batchLen) && Lost(Prepend(o, p).outs) == Lost(p.outs)
  {
    hide Chain;
    assert ([o] + p.outs)[1..] == p.outs;
  }

  lemma {:induction false} MainPhase(e: Env, stop: nat, ts: seq<Transform>, t: nat, batchLen: nat)
    requires Sound(e, batchLen)
    ensures var p := MainLoop(e, stop, ts, t);
            Fair(ts, p.outs, batchLen) && (p.ok <==> Lost(p.outs) == [])
    decreases stop - t
  {
    hide Fair, Lost, OneRound, Quiet, Prepend;
    FairEnds(ts, [], batchLen);
    if t < stop {
      var (round, t1) := OneRound(e, ts, stop, t);
      if round.Did? && round.o.Abandoned? {
        FairEnds(ts, round.o.batch, batchLen);
      } else if !round.Broken? {
        MainPhase(e, stop, ts, t1, batchLen);
        if round.Did? {
          FairPrepend(round.o, MainLoop(e, stop, ts, t1), ts, batchLen);
        }
      }
    }
  }

  lemma {:induction false} DrainPhase(e: Env, ts: seq<Transform>, t: nat, batchLen: nat)
    requires Sound(e, batchLen)
    ensures var p := DrainLoop(e, ts, t);
            Fair(ts, p.outs, batchLen) && (p.ok ==> Lost(p.outs) == [])
    decreases e.quietFrom - t
  {
    hide Fair, Lost, OneRound, Prepend;
    FairEnds(ts, [], batchLen);
    var (round, t1) := OneRound(e, ts, e.expireAt, t);
    if round.Did? && round.o.Abandoned? {
      FairEnds(ts, round.o.batch, batchLen);
    } else if round.Did? {
      DrainPhase(e, ts, t1, batchLen);
      FairPrepend(round.o, DrainLoop(e, ts, t1), ts, batchLen);
    }
  }

  lemma {:induction false} LostAtMostOne(outs: seq<Outcome>)
    requires LastOnly(outs)
    ensures |Lost(outs)| <= 1
    decreases |outs|
  {
    if |outs| > 1 {
      LostAtMostOne(outs[1..]);
    } else if |outs| == 1 {
      assert Lost(outs[1..]) == [];
    }
  }

  lemma {:induction false} LostConcat(a: seq<Outcome>, b: seq<Outcome>)
    ensures Lost(a + b) == Lost(a) + Lost(b)
    decreases |a|
  {
    if a == [] {
      assert a + b == b;
    } else {
      LostConcat(a[1..], b);
      assert (a + b)[1..] == a[1..] + b;
    }
  }

  lemma {:induction false} LostIsShort(outs: seq<Outcome>, batchLen: nat)
    requires Short(outs, batchLen)
    ensures |Flatten(Lost(outs))| <= |Lost(outs)| * batchLen
    decreases |outs|
  {
    if outs != [] {
      LostIsShort(outs[1..], batchLen);
      var rest := Lost(outs[1..]);
      if outs[0].Abandoned? {
        assert Lost(outs) == [outs[0].batch] + rest;
        assert Lost(outs)[1..] == rest;
        assert |Lost(outs)| * batchLen == batchLen + |rest| * batchLen;
      } else {
        assert Lost(outs) == rest;
      }
    }
  }

  /** What is delivered is the transformed stream of the batches that were not abandoned. */
  lemma {:induction false} DeliveredIsHandled(ts: seq<Transform>, outs: seq<Outcome>)
    requires Honest(ts, outs)
    ensures Delivered(ts, outs) == Chain(ts, Flatten(Handled(outs)))
    decreases |outs|
  {
    if outs == [] {
      ChainEmpty(ts);
    } else {
      hide Chain;
      var rest := Handled(outs[1..]);
      DeliveredIsHandled(ts, outs[1..]);
      if outs[0].Abandoned? {
        assert Handled(outs) == rest;
      } else {
        assert Handled(outs) == [outs[0].batch] + rest && Handled(outs)[1..] == rest;
        ChainConcat(ts, outs[0].batch, Flatten(rest));
      }
    }
  }

  /** The loss bound for a whole run, shutdown included: what the output acknowledged is, in
      order, the transformed stream of everything read except at most two batches, one from the
      main loop and one from the drain, so at most 2 * batchLen records. */
  lemma {:induction false} LossBound(e: Env, stop: nat, ts: seq<Transform>, batchLen: nat)
    requires Sound(e, batchLen)
    ensures var r := RunSpec(e, stop, ts);
            var outs := r.main.outs + r.drain.outs;
            && Delivered(ts, outs) == Chain(ts, Flatten(Handled(outs)))
            && |Lost(r.main.outs)| <= 1 && |Lost(r.drain.outs)| <= 1
            && Lost(outs) == Lost(r.main.outs) + Lost(r.drain.outs)
            && |Flatten(Lost(outs))| <= 2 * batchLen
  {
    hide MainLoop, DrainLoop, Chain, Delivered, Handled, Lost, Quiet;
    var r := RunSpec(e, stop, ts);
    var outs := r.main.outs + r.drain.outs;
    MainPhase(e, stop, ts, 0, batchLen);
    DrainPhase(e, ts, r.main.t, batchLen);
    LostAtMostOne(r.main.outs);
    LostAtMostOne(r.drain.outs);
    LostConcat(r.main.outs, r.drain.outs);
    DeliveredIsHandled(ts, outs);
    LostIsShort(outs, batchLen);
    assert |Lost(outs)| * batchLen <= 2 * batchLen;
  }

  /** The bound is reached: some run loses two full batches. */
  lemma LossBoundTight(batch: seq<Record>)
    requires batch != []
    ensures exists e :: Sound(e, |batch|) && |Flatten(Lost(RunSpec(e, 1, []).main.outs + RunSpec(e, 1, []).drain.outs))| == 2 * |batch|
  {
    var read := (t: nat) => if t == 0 || t == 2 then Got(batch) else Got([]);
    var e := Env(read, (t: nat) => false, 3, 3);
    assert Write(e, 1, 1) == (false, 2) && Write(e, 3, 3) == (false, 4);
    assert MainLoop(e, 1, [], 0) == Phase([Abandoned(batch)], 2, false);
    assert DrainLoop(e, [], 2) == Phase([Abandoned(batch)], 4, false);
    assert Sound(e, |batch|);
    var r := RunSpec(e, 1, []);
    var outs := [Abandoned(batch)] + [Abandoned(batch)];
    assert outs == r.main.outs + r.drain.outs;
    assert outs[1..] == [Abandoned(batch)];
    assert Lost([Abandoned(batch)]) == [batch] + Lost([]);
    assert Lost(outs) == [batch] + [batch];
    assert Flatten([batch]) == batch + Flatten([]);
    assert Lost(outs)[1..] == [batch];
  }

  // ---------------------------------------------------------------- when a batch is given up

  /** The input returns a batch at time `t` of which the transforms leave something. */
  ghost predicate Survives(e: Env, ts: seq<Transform>, t: nat) {
    e.read(t).Got? && Chain(ts, e.read(t).records) != []
  }

  /** After reading at `p` a loop that no context ends reads next at `t`: at once if there is
      nothing to write, else after the first write that the output takes.  The drain ends at the
      first empty read, the main loop goes on. */
  ghost predicate Leads(e: Env, ts: seq<Transform>, drain: bool, p: nat, t: nat) {
    && e.read(p).Got? && (drain ==> e.read(p).records != [])
    && if Survives(e, ts, p) then t > p + 1 && e.accepts(t - 1) && forall u: nat :: p < u < t - 1 ==> !e.accepts(u)
       else t == p + 1
  }

  /** A loop that begins at `start` and that no context ends reads at `t`. */
  ghost predicate ReadsAt(e: Env, ts: seq<Transform>, drain: bool, start: nat, t: nat)
    decreases t
  {
    t == start || exists p: nat :: start <= p < t && ReadsAt(e, ts, drain, start, p) && Leads(e, ts, drain, p, t)
  }

  /** The batch read at `t` is refused until the context is done, and once at least. */
  ghost predicate Stuck(e: Env, ts: seq<Transform>, done: nat, t: nat) {
    Survives(e, ts, t) && forall u: nat :: t < u <= done || u == t + 1 ==> !e.accepts(u)
  }

  /** The main loop sits in `writeBatch` with a refusing output when it is stopped. */
  ghost predicate StuckAtStop(e: Env, ts: seq<Transform>, stop: nat) {
    exists t: nat :: t < stop && ReadsAt(e, ts, false, 0, t) && Stuck(e, ts, stop, t)
  }

  /** The drain that begins at `start` sits there when its context expires. */
  ghost predicate StuckAtExpiry(e: Env, ts: seq<Transform>, start: nat) {
    exists t: nat :: ReadsAt(e, ts, true, start, t) && Stuck(e, ts, e.expireAt, t)
  }

  /** The drain reads the end of the input before its context expires. */
  ghost predicate RunsDry(e: Env, ts: seq<Transform>, start: nat) {
    exists t: nat :: t + 1 < e.expireAt && ReadsAt(e, ts, true, start, t) && e.read(t) == Got([])
  }

  /** A main loop that is not stuck ends at the first read that the stop prevents, or after a
      failed read. */
  ghost predicate EndsAt(e: Env, ts: seq<Transform>, stop: nat, s: nat) {
    || (stop <= s && ReadsAt(e, ts, false, 0, s) && forall t: nat :: stop <= t < s ==> !ReadsAt(e, ts, false, 0, t))
    || (exists t: nat :: t < stop && ReadsAt(e, ts, false, 0, t) && e.read(t).Failed? && s == t + 1)
  }

  /** The drain begins at `s`. */
  ghost predicate DrainStart(e: Env, ts: seq<Transform>, stop: nat, s: nat) {
    if StuckAtStop(e, ts, stop) then s == stop + 1 else EndsAt(e, ts, stop, s)
  }

  lemma {:induction false} ReadsLater(e: Env, ts: seq<Transform>, drain: bool, start: nat, t: nat)
    requires ReadsAt(e, ts, drain, start, t)
    ensures start <= t
  {
  }

  lemma ReadBefore(e: Env, ts: seq<Transform>, drain: bool, start: nat, t: nat) returns (p: nat)
    requires ReadsAt(e, ts, drain, start, t) && t != start
    ensures start <= p < t && ReadsAt(e, ts, drain, start, p) && Leads(e, ts, drain, p, t)
  {
    hide Leads;
    p :| start <= p < t && ReadsAt(e, ts, drain, start, p) && Leads(e, ts, drain, p, t);
  }

  /** The times of reading form one chain: between two of them lies the one, `b`, that the first
      leads to. */
  lemma {:induction false} Passes(e: Env, ts: seq<Transform>, drain: bool, start: nat, a: nat, t: nat) returns (b: nat)
    requires ReadsAt(e, ts, drain, start, a) && ReadsAt(e, ts, drain, start, t) && a < t
    ensures a < b <= t && Leads(e, ts, drain, a, b)
    decreases t
  {
    hide Leads, ReadsAt;
    ReadsLater(e, ts, drain, start, a);
    var p := ReadBefore(e, ts, drain, start, t);
    if p == a {
      b := t;
    } else if p > a {
      b := Passes(e, ts, drain, start, a, p);
    } else {
      b := Passes(e, ts, drain, start, p, a);
      LeadsOnce(e, ts, drain, p, b, t);
    }
  }

  lemma LeadsOnce(e: Env, ts: seq<Transform>, drain: bool, p: nat, a: nat, b: nat)
    requires Leads(e, ts, drain, p, a) && Leads(e, ts, drain, p, b)
    ensures a == b
  {
    hide Survives;
    var x: nat, y: nat := a - 1, b - 1;
    assert Survives(e, ts, p) ==> e.accepts(x) && e.accepts(y);
  }

  /** One round, as the chain of reads sees it. */
  lemma RoundLeads(e: Env, ts: seq<Transform>, drain: bool, done: nat, t: nat)
    ensures var (round, t1) := OneRound(e, ts, done, t);
            match round
            case Broken => e.read(t).Failed? && t1 == t + 1
            case Empty => e.read(t) == Got([]) && t1 == t + 1 && (!drain ==> Leads(e, ts, drain, t, t1)) && !Survives(e, ts, t)
            case Did(o) => e.read(t).Got? && e.read(t).records != []
                           && if o.Abandoned? then
                                Stuck(e, ts, done, t) && t1 == 1 + if done > t then done else t + 1
                              else
                                Leads(e, ts, drain, t, t1) && !Stuck(e, ts, done, t)
  {
    hide Chain, Write;
    ChainEmpty(ts);
    WriteExact(e, done, t + 1);
  }

  /** `Write` ends with the first write that is taken, or with the first one refused when the
      context is done. */
  lemma {:induction false} WriteExact(e: Env, done: nat, t: nat)
    ensures var (ok, t1) := Write(e, done, t);
            var last := if done > t then done else t;
            && t < t1 <= last + 1 && (!ok ==> t1 == last + 1) && ok == e.accepts(t1 - 1)
            && forall u: nat :: t <= u < t1 - 1 ==> !e.accepts(u)
    decreases done - t
  {
    if !e.accepts(t) && t < done {
      WriteExact(e, done, t + 1);
    }
  }

  lemma Later(e: Env, ts: seq<Transform>, drain: bool, start: nat, p: nat, t: nat)
    requires ReadsAt(e, ts, drain, start, p) && Leads(e, ts, drain, p, t) && start <= p < t
    ensures ReadsAt(e, ts, drain, start, t)
  {
  }

  /** No read lies between `p` and the read it leads to. */
  lemma NoneBetween(e: Env, ts: seq<Transform>, drain: bool, start: nat, p: nat, next: nat)
    requires ReadsAt(e, ts, drain, start, p) && Leads(e, ts, drain, p, next)
    ensures forall t: nat :: p < t < next ==> !ReadsAt(e, ts, drain, start, t)
  {
    hide Leads, ReadsAt;
    forall b: nat | Leads(e, ts, drain, p, b) ensures b == next {
      LeadsOnce(e, ts, drain, p, b, next);
    }
    NoneAfter(e, ts, drain, start, p, next);
  }

  /** A read that leads nowhere is the last one. */
  lemma NoneAfter(e: Env, ts: seq<Transform>, drain: bool, start: nat, p: nat, from: nat)
    requires ReadsAt(e, ts, drain, start, p) && forall b: nat :: Leads(e, ts, drain, p, b) ==> b >= from
    ensures forall t: nat :: p < t < from ==> !ReadsAt(e, ts, drain, start, t)
  {
    forall t: nat | p < t < from ensures !ReadsAt(e, ts, drain, start, t) {
      if ReadsAt(e, ts, drain, start, t) {
        hide Leads, ReadsAt;
        var b := Passes(e, ts, drain, start, p, t);
      }
    }
  }

  /** The main loop from a read at `t` on gives up a batch if and only if it is stuck at the stop. */
  lemma {:induction false} MainStuck(e: Env, stop: nat, ts: seq<Transform>, t: nat)
    requires ReadsAt(e, ts, false, 0, t)
    ensures MainLoop(e, stop, ts, t).ok <==>
            !exists u: nat :: t <= u < stop && ReadsAt(e, ts, false, 0, u) && Stuck(e, ts, stop, u)
    decreases stop - t
  {
    hide OneRound, ReadsAt, Stuck, Leads, Survives, Prepend;
    if t < stop {
      var (round, t1) := OneRound(e, ts, stop, t);
      RoundLeads(e, ts, false, stop, t);
      if round.Broken? {
        FailedIsLast(e, ts, false, stop, t);
        NoneAfter(e, ts, false, 0, t, stop);
      } else if !(round.Did? && round.o.Abandoned?) {
        Later(e, ts, false, 0, t, t1);
        NoneBetween(e, ts, false, 0, t, t1);
        MainStuck(e, stop, ts, t1);
        NotStuck(e, ts, stop, t);
      }
    }
  }

  lemma FailedIsLast(e: Env, ts: seq<Transform>, drain: bool, done: nat, t: nat)
    requires e.read(t).Failed? || (drain && e.read(t) == Got([]))
    ensures !Stuck(e, ts, done, t) && forall b: nat :: !Leads(e, ts, drain, t, b)
  {
    ChainEmpty(ts);
  }

  lemma NotStuck(e: Env, ts: seq<Transform>, done: nat, t: nat)
    ensures !Survives(e, ts, t) ==> !Stuck(e, ts, done, t)
  {
  }

  /** A batch that is given up leads to no read before the write that gives it up. */
  lemma StuckLeads(e: Env, ts: seq<Transform>, drain: bool, done: nat, t: nat)
    requires Stuck(e, ts, done, t)
    ensures forall b: nat :: Leads(e, ts, drain, t, b) ==> b > done + 1 && b > t + 2
  {
    hide Survives;
    forall b: nat | Leads(e, ts, drain, t, b) ensures b > done + 1 && b > t + 2 {
      var w: nat := b - 1;
      assert e.accepts(w);
    }
  }

  /** Where the main loop ends. */
  lemma {:induction false} MainEnd(e: Env, stop: nat, ts: seq<Transform>, t: nat)
    requires ReadsAt(e, ts, false, 0, t)
    requires forall u: nat :: stop <= u < t ==> !ReadsAt(e, ts, false, 0, u)
    ensures var p := MainLoop(e, stop, ts, t);
            if p.ok then EndsAt(e, ts, stop, p.t) else p.t == stop + 1
    decreases stop - t
  {
    hide OneRound, ReadsAt, Stuck, Leads, Survives, Prepend;
    if t < stop {
      var (round, t1) := OneRound(e, ts, stop, t);
      RoundLeads(e, ts, false, stop, t);
      if !round.Broken? && !(round.Did? && round.o.Abandoned?) {
        Later(e, ts, false, 0, t, t1);
        NoneBetween(e, ts, false, 0, t, t1);
        MainEnd(e, stop, ts, t1);
      }
    }
  }

  /** There is only one such time. */
  lemma {:induction false} DrainStartUnique(e: Env, ts: seq<Transform>, stop: nat, a: nat, b: nat)
    requires DrainStart(e, ts, stop, a) && DrainStart(e, ts, stop, b)
    ensures a == b
  {
    hide ReadsAt, Leads, Stuck, Survives;
    forall p: nat, t: nat | ReadsAt(e, ts, false, 0, p) && e.read(p).Failed? && p < t
      ensures !ReadsAt(e, ts, false, 0, t)
    {
      FailedIsLast(e, ts, false, stop, p);
      NoneAfter(e, ts, false, 0, p, t + 1);
    }
  }

  /** The drain from a read at `t` on gives up a batch if and only if it is stuck at the expiry,
      and reports success if and only if it runs dry in time. */
  lemma {:induction false} DrainStuck(e: Env, ts: seq<Transform>, start: nat, t: nat)
    requires Quiet(e) && ReadsAt(e, ts, true, start, t)
    ensures var p := DrainLoop(e, ts, t);
            && (Lost(p.outs) == [] <==>
                !exists u: nat :: t <= u && ReadsAt(e, ts, true, start, u) && Stuck(e, ts, e.expireAt, u))
            && (p.ok <==> exists u: nat :: t <= u && u + 1 < e.expireAt && ReadsAt(e, ts, true, start, u) && e.read(u) == Got([]))
    decreases e.quietFrom - t
  {
    hide OneRound, ReadsAt, Stuck, Leads, Survives, Quiet, Lost;
    var (round, t1) := OneRound(e, ts, e.expireAt, t);
    RoundLeads(e, ts, true, e.expireAt, t);
    ReadsLater(e, ts, true, start, t);
    LostEnds(if round.Did? then round.o else Acked([]), DrainLoop(e, ts, t).outs);
    if !round.Did? {
      FailedIsLast(e, ts, true, e.expireAt, t);
      forall u: nat | t < u ensures !ReadsAt(e, ts, true, start, u) {
        NoneAfter(e, ts, true, start, t, u + 1);
      }
    } else if round.o.Abandoned? {
      StuckLeads(e, ts, true, e.expireAt, t);
      NoneAfter(e, ts, true, start, t, e.expireAt);
    } else {
      QuietAt(e, t);
      Later(e, ts, true, start, t, t1);
      NoneBetween(e, ts, true, start, t, t1);
      DrainStuck(e, ts, start, t1);
      var rest := DrainLoop(e, ts, t1).outs;
      assert ([round.o] + rest)[1..] == rest;
      LostEnds(round.o, [round.o] + rest);
    }
  }

  lemma LostEnds(o: Outcome, outs: seq<Outcome>)
    ensures Lost([]) == [] && (o.Abandoned? ==> Lost([o]) != [])
    ensures outs != [] && outs[0] == o && !o.Abandoned? ==> Lost(outs) == Lost(outs[1..])
  {
    assert Lost([o]) == (if o.Abandoned? then [o.batch] else []) + Lost([]);
  }

  // ---------------------------------------------------------------- every batch read is accounted for

  /** The non-empty batches that a loop that begins at `start`, and that no context ends, reads
      before `limit`. */
  ghost function BatchesRead(e: Env, ts: seq<Transform>, drain: bool, start: nat, limit: nat): seq<seq<Record>>
    decreases limit
  {
    if limit <= start then []
    else
      var t: nat := limit - 1;
      BatchesRead(e, ts, drain, start, t) +
      if ReadsAt(e, ts, drain, start, t) && e.read(t).Got? && e.read(t).records != [] then [e.read(t).records] else []
  }

  lemma {:induction false} NoneRead(e: Env, ts: seq<Transform>, drain: bool, start: nat, a: nat, b: nat)
    requires start <= a <= b && forall t: nat :: a <= t < b ==> !ReadsAt(e, ts, drain, start, t)
    ensures BatchesRead(e, ts, drain, start, b) == BatchesRead(e, ts, drain, start, a)
    decreases b
  {
    hide ReadsAt;
    if a < b {
      NoneRead(e, ts, drain, start, a, b - 1);
    }
  }

  /** One read, and none until `next`. */
  lemma {:induction false} OneRead(e: Env, ts: seq<Transform>, drain: bool, start: nat, t: nat, next: nat)
    requires start <= t < next && ReadsAt(e, ts, drain, start, t)
    requires forall u: nat :: t < u < next ==> !ReadsAt(e, ts, drain, start, u)
    ensures BatchesRead(e, ts, drain, start, next) == BatchesRead(e, ts, drain, start, t) +
            if e.read(t).Got? && e.read(t).records != [] then [e.read(t).records] else []
  {
    hide ReadsAt;
    NoneRead(e, ts, drain, start, t + 1, next);
  }

  /** The outcomes of the main loop from a read at `t` on are those of all batches read. */
  lemma {:induction false} MainLogs(e: Env, stop: nat, ts: seq<Transform>, t: nat)
    requires ReadsAt(e, ts, false, 0, t) && forall u: nat :: stop <= u < t ==> !ReadsAt(e, ts, false, 0, u)
    ensures BatchesRead(e, ts, false, 0, if stop < t then t else stop)
         == BatchesRead(e, ts, false, 0, t) + Batches(MainLoop(e, stop, ts, t).outs)
    decreases stop - t
  {
    hide OneRound, ReadsAt, Stuck, Leads, Survives, BatchesRead, Chain;
    var b := BatchesRead(e, ts, false, 0, t);
    assert b + [] == b;
    if t < stop {
      var (round, t1) := OneRound(e, ts, stop, t);
      RoundLeads(e, ts, false, stop, t);
      RoundReads(e, ts, stop, t);
      if round.Broken? {
        FailedIsLast(e, ts, false, stop, t);
        NoneAfter(e, ts, false, 0, t, stop);
        OneRead(e, ts, false, 0, t, stop);
      } else if round.Did? && round.o.Abandoned? {
        StuckLeads(e, ts, false, stop, t);
        NoneAfter(e, ts, false, 0, t, stop);
        OneRead(e, ts, false, 0, t, stop);
        assert Batches([round.o]) == [round.o.batch] + Batches([round.o][1..]);
      } else {
        Later(e, ts, false, 0, t, t1);
        NoneBetween(e, ts, false, 0, t, t1);
        OneRead(e, ts, false, 0, t, t1);
        MainLogs(e, stop, ts, t1);
        if round.Did? {
          PrependBatches(round.o, MainLoop(e, stop, ts, t1));
          Assoc(b, [round.o.batch], Batches(MainLoop(e, stop, ts, t1).outs));
        }
        if t1 > stop {
          NoneRead(e, ts, false, 0, stop, t1);
        }
      }
    }
  }

  lemma RoundReads(e: Env, ts: seq<Transform>, done: nat, t: nat)
    ensures var round := OneRound(e, ts, done, t).0;
            round.Did? ==> e.read(t) == Got(round.o.batch) && round.o.batch != []
  {
  }

  lemma PrependBatches(o: Outcome, p: Phase)
    ensures Batches(Prepend(o, p).outs) == [o.batch] + Batches(p.outs)
  {
    assert ([o] + p.outs)[1..] == p.outs;
  }

  /** The same for the drain, which ends at a time of its own. */
  lemma {:induction false} DrainLogs(e: Env, ts: seq<Transform>, start: nat, t: nat)
    requires Quiet(e) && ReadsAt(e, ts, true, start, t)
    ensures var p := DrainLoop(e, ts, t);
            t < p.t && BatchesRead(e, ts, true, start, p.t) == BatchesRead(e, ts, true, start, t) + Batches(p.outs)
    decreases e.quietFrom - t
  {
    hide OneRound, ReadsAt, Stuck, Leads, Survives, BatchesRead, Chain, Quiet;
    var b := BatchesRead(e, ts, true, start, t);
    assert b + [] == b;
    var (round, t1) := OneRound(e, ts, e.expireAt, t);
    ReadsLater(e, ts, true, start, t);
    RoundLeads(e, ts, true, e.expireAt, t);
    RoundReads(e, ts, e.expireAt, t);
    if !round.Did? {
      FailedIsLast(e, ts, true, e.expireAt, t);
      NoneAfter(e, ts, true, start, t, t1);
      OneRead(e, ts, true, start, t, t1);
    } else if round.o.Abandoned? {
      StuckLeads(e, ts, true, e.expireAt, t);
      NoneAfter(e, ts, true, start, t, t1);
      OneRead(e, ts, true, start, t, t1);
      assert Batches([round.o]) == [round.o.batch] + Batches([round.o][1..]);
    } else {
      QuietAt(e, t);
      Later(e, ts, true, start, t, t1);
      NoneBetween(e, ts, true, start, t, t1);
      OneRead(e, ts, true, start, t, t1);
      DrainLogs(e, ts, start, t1);
      PrependBatches(round.o, DrainLoop(e, ts, t1));
      Assoc(b, [round.o.batch], Batches(DrainLoop(e, ts, t1).outs));
    }
  }

  /** No batch that the input returned is missing from the account: the outcomes of a run are, in
      order, those of all non-empty batches read by the main loop before the stop and by the drain
      before it ended. */
  lemma {:induction false} AllAccounted(e: Env, stop: nat, ts: seq<Transform>)
    requires Quiet(e)
    ensures var r := RunSpec(e, stop, ts);
            && Batches(r.main.outs) == BatchesRead(e, ts, false, 0, stop)
            && Batches(r.drain.outs) == BatchesRead(e, ts, true, r.main.t, r.drain.t)
  {
    hide MainLoop, DrainLoop, Quiet, ReadsAt;
    var r := RunSpec(e, stop, ts);
    ReadsFirst(e, ts, r.main.t);
    MainLogs(e, stop, ts, 0);
    DrainLogs(e, ts, r.main.t, r.main.t);
    assert [] + Batches(r.main.outs) == Batches(r.main.outs) && [] + Batches(r.drain.outs) == Batches(r.drain.outs);
  }

  // ---------------------------------------------------------------- cleaning up

  /** When the files are deleted and when anything was lost, read off from what the input
      returns, what the output takes, and when the contexts end: the files are deleted if and
      only if the drain reads the end of the input before its context expires; nothing at all was
      lost if and only if neither loop was stuck in a write when its context ended; so files are
      deleted after a loss if and only if the main loop was. */
  lemma {:induction false} CleanCondition(e: Env, stop: nat, ts: seq<Transform>, batchLen: nat)
    requires Sound(e, batchLen)
    ensures var r := RunSpec(e, stop, ts);
            && (forall s: nat :: DrainStart(e, ts, stop, s) <==> s == r.main.t)
            && (r.drain.ok <==> RunsDry(e, ts, r.main.t))
            && (r.main.ok <==> !StuckAtStop(e, ts, stop))
            && (Lost(r.main.outs + r.drain.outs) == [] <==>
                !StuckAtStop(e, ts, stop) && !StuckAtExpiry(e, ts, r.main.t))
            && (r.drain.ok ==> !StuckAtExpiry(e, ts, r.main.t))
  {
    hide MainLoop, DrainLoop, Lost, Quiet, ReadsAt, Stuck, EndsAt;
    var r := RunSpec(e, stop, ts);
    assert ReadsAt(e, ts, false, 0, 0) && ReadsAt(e, ts, true, r.main.t, r.main.t) by { ReadsFirst(e, ts, r.main.t); }
    MainStuck(e, stop, ts, 0);
    MainEnd(e, stop, ts, 0);
    forall s: nat | DrainStart(e, ts, stop, s) ensures s == r.main.t {
      DrainStartUnique(e, ts, stop, s, r.main.t);
    }
    MainPhase(e, stop, ts, 0, batchLen);
    DrainStuck(e, ts, r.main.t, r.main.t);
    DrainPhase(e, ts, r.main.t, batchLen);
    LostConcat(r.main.outs, r.drain.outs);
    forall u: nat | ReadsAt(e, ts, true, r.main.t, u) ensures r.main.t <= u {
      ReadsLater(e, ts, true, r.main.t, u);
    }
  }

  lemma ReadsFirst(e: Env, ts: seq<Transform>, start: nat)
    ensures ReadsAt(e, ts, false, 0, 0) && ReadsAt(e, ts, true, start, start)
  {
  }

  /** A run that deletes the files although a batch was lost: the output refuses until the stop,
      and the drain then finds nothing more to read. */
  lemma CleanAfterLoss(x: Record)
    ensures exists e :: Sound(e, 1) && var r := RunSpec(e, 1, []); r.drain.ok && Lost(r.main.outs) == [[x]]
  {
    var e := Env((t: nat) => if t == 0 then Got([x]) else Got([]), (t: nat) => false, 10, 1);
    assert Write(e, 1, 1) == (false, 2);
    assert MainLoop(e, 1, [], 0) == Phase([Abandoned([x])], 2, false);
    assert DrainLoop(e, [], 2) == Phase([], 3, true);
    assert Lost([Abandoned([x])]) == [[x]] + Lost([]);
    assert Sound(e, 1) && RunSpec(e, 1, []).drain.ok && Lost(RunSpec(e, 1, []).main.outs) == [[x]];
  }

  // ---------------------------------------------------------------- the runner object

  /** The delay before retry `i`, in milliseconds. */
  function Backoff(i: nat): (ms: nat)
    ensures ms == [200, 400, 800, 1600, 3200, 6400][if i < 5 then i else 5]
  {
    if i == 0 then 200 else if Backoff(i - 1) < 5000 then 2 * Backoff(i - 1) else Backoff(i - 1)
  }

  lemma BackoffNext(i: nat)
    ensures Backoff(0) == 200
    ensures Backoff(i + 1) == if Backoff(i) < 5000 then 2 * Backoff(i) else Backoff(i)
  {
  }

  lemma {:induction false} SnocBatch(outs: seq<Outcome>, o: Outcome)
    ensures Batches(outs + [o]) == Batches(outs) + [o.batch]
    decreases |outs|
  {
    if outs == [] {
      assert (outs + [o])[1..] == [];
    } else {
      assert (outs + [o])[1..] == outs[1..] + [o];
      SnocBatch(outs[1..], o);
    }
  }

  lemma {:induction false} SnocDelivered(ts: seq<Transform>, outs: seq<Outcome>, o: Outcome)
    ensures Delivered(ts, outs + [o]) == Delivered(ts, outs) + Share(ts, o)
    decreases |outs|
  {
    hide Share;
    if outs == [] {
      assert (outs + [o])[1..] == [];
    } else {
      assert (outs + [o])[1..] == outs[1..] + [o];
      SnocDelivered(ts, outs[1..], o);
      Assoc(Share(ts, outs[0]), Delivered(ts, outs[1..]), Share(ts, o));
    }
  }

  lemma SnocOutcome(ts: seq<Transform>, outs: seq<Outcome>, o: Outcome)
    ensures Batches(outs + [o]) == Batches(outs) + [o.batch]
    ensures Delivered(ts, outs + [o]) == Delivered(ts, outs) + if o.Acked? then Chain(ts, o.batch) else []
  {
    SnocBatch(outs, o);
    SnocDelivered(ts, outs, o);
  }

  lemma WriteUnfold(e: Env, done: nat, t: nat)
    ensures Write(e, done, t) == if e.accepts(t) then (true, t + 1) else if t >= done then (false, t + 1) else Write(e, done, t + 1)
  {
  }

  /** A phase whose first outcomes are `outs`. */
  ghost function After(outs: seq<Outcome>, p: Phase): Phase {
    p.(outs := outs + p.outs)
  }

  lemma AfterPrepend(outs: seq<Outcome>, o: Outcome, p: Phase)
    ensures After(outs, Prepend(o, p)) == After(outs + [o], p)
  {
    assert outs + ([o] + p.outs) == outs + [o] + p.outs;
  }

  lemma QuietAt(e: Env, t: nat)
    requires Quiet(e) && e.read(t).Got? && e.read(t).records != []
    ensures t < e.quietFrom
  {
  }

  class Pipeline {
    const env: Env
    const stopAt: nat
    const transforms: seq<Transform>
    var clock: nat
    /** `Stop` was called before `Run`. */
    var stopRequested: bool
    var sent: nat
    /** Batches read, records acknowledged, and the number of batches the input has committed. */
    var readLog: seq<seq<Record>>
    var output: seq<Record>
    var committed: nat
    var cleaned: bool

    constructor (env: Env, stopAt: nat, transforms: seq<Transform>)
      ensures this.env == env && this.stopAt == stopAt && this.transforms == transforms
      ensures clock == 0 && !stopRequested && sent == 0 && readLog == [] && output == [] && committed == 0 && !cleaned
    {
      this.env, this.stopAt, this.transforms := env, stopAt, transforms;
      clock, stopRequested, sent, readLog, output, committed, cleaned := 0, false, 0, [], [], 0, false;
    }

    /** Before `Run` it only leaves a mark; during `Run` it is what makes the context done at `stopAt`. */
    method Stop()
      modifies `stopRequested
      ensures stopRequested
    {
      stopRequested := true;
    }

    /** Writes until the output takes the batch or the context is done, waiting longer each time. */
    method WriteBatch(records: seq<Record>, done: nat) returns (ok: bool, waits: seq<nat>)
      modifies `clock, `output
      ensures (ok, clock) == Write(env, done, old(clock))
      ensures output == if ok then old(output) + records else old(output)
      ensures forall i :: 0 <= i < |waits| ==> waits[i] == Backoff(i)
    {
      hide Backoff, Write;
      waits := [];
      var backoff := 200;
      BackoffNext(0);
      while true
        invariant Write(env, done, clock) == Write(env, done, old(clock))
        invariant output == old(output)
        invariant backoff == Backoff(|waits|)
        invariant forall i :: 0 <= i < |waits| ==> waits[i] == Backoff(i)
        decreases done - clock
      {
        WriteUnfold(env, done, clock);
        var taken := env.accepts(clock);
        clock := clock + 1;
        if taken {
          output := output + records;
          return true, waits;
        }
        if clock > done {
          return false, waits;
        }
        BackoffNext(|waits|);
        waits := waits + [backoff];
        if backoff < 5000 {
          backoff := backoff * 2;
        }
      }
    }

    /** The logs are those of the outcomes so far. */
    ghost predicate Logged(outs: seq<Outcome>)
      reads `readLog, `output, `sent
    {
      readLog == Batches(outs) && output == Delivered(transforms, outs) && sent == |output|
    }

    /** Reads one batch, transforms it, writes it, and then commits the input. */
    method DoRound(done: nat, ghost outs: seq<Outcome>) returns (round: Round)
      requires Logged(outs)
      modifies `clock, `readLog, `output, `committed, `sent
      ensures (round, clock) == OneRound(env, transforms, done, old(clock))
      ensures Logged(if round.Did? then outs + [round.o] else outs)
      ensures committed == if round.Did? && round.o.Acked? then |readLog| else old(committed)
    {
      hide Chain, Write, Batches, Delivered;
      var answer := env.read(clock);
      clock := clock + 1;
      if answer.Failed? {
        return Broken;
      }
      var records := answer.records;
      if records == [] {
        return Empty;
      }
      readLog := readLog + [records];
      var a := new Record[|records|](i requires 0 <= i < |records| => records[i]);
      assert a[..|records|] == records;
      var k := ApplyTransforms(transforms, a, |records|);
      var out := a[..k];
      if k == 0 {
        SnocOutcome(transforms, outs, Filtered(records));
        return Did(Filtered(records));
      }
      var ok, _ := WriteBatch(out, done);
      if !ok {
        SnocOutcome(transforms, outs, Abandoned(records));
        return Did(Abandoned(records));
      }
      SnocOutcome(transforms, outs, Acked(records));
      committed := |readLog|;
      sent := sent + k;
      return Did(Acked(records));
    }

    /** The main loop of `Run`. */
    method RunLoop(stop: nat) returns (ghost p: Phase)
      requires Logged([])
      modifies `clock, `readLog, `output, `committed, `sent
      ensures p == MainLoop(env, stop, transforms, old(clock)) && clock == p.t && Logged(p.outs)
    {
      hide OneRound, Logged;
      ghost var whole := MainLoop(env, stop, transforms, clock);
      ghost var outs := [];
      while clock < stop
        invariant Logged(outs)
        invariant whole == After(outs, MainLoop(env, stop, transforms, clock))
        decreases stop - clock
      {
        var round := DoRound(stop, outs);
        if round.Broken? {
          assert whole.outs == outs;
          return whole;
        }
        if round.Did? {
          if round.o.Abandoned? {
            return whole;
          }
          AfterPrepend(outs, round.o, MainLoop(env, stop, transforms, clock));
          outs := outs + [round.o];
        }
      }
      assert whole.outs == outs;
      return whole;
    }

    /** `shutdown`: drains, closes the input (which commits its position whatever became of the
        batches before it), and deletes the log files if the drain succeeded. */
    method Shutdown(ghost before: seq<Outcome>) returns (ghost p: Phase)
      requires Quiet(env) && Logged(before)
      modifies `clock, `readLog, `output, `committed, `sent, `cleaned
      ensures p == DrainLoop(env, transforms, old(clock)) && clock == p.t && Logged(before + p.outs)
      ensures committed == |readLog| && cleaned == p.ok
    {
      hide OneRound, Logged, Quiet;
      ghost var whole := DrainLoop(env, transforms, clock);
      ghost var outs := [];
      assert before + outs == before;
      var drained := true;
      while true
        invariant Logged(before + outs)
        invariant drained && whole == After(outs, DrainLoop(env, transforms, clock))
        decreases env.quietFrom - clock
      {
        ghost var t := clock;
        var round := DoRound(env.expireAt, before + outs);
        if round.Broken? {
          drained := false;
          break;
        }
        if round.Empty? {
          break;
        }
        assert t < env.quietFrom by { QuietAt(env, t); }
        outs := outs + [round.o];
        assert before + outs == before + outs[..|outs| - 1] + [round.o];
        if round.o.Abandoned? {
          drained := false;
          break;
        }
        AfterPrepend(outs[..|outs| - 1], round.o, DrainLoop(env, transforms, clock));
        assert outs[..|outs| - 1] + [round.o] == outs;
      }
      assert whole.outs == outs;
      if clock >= env.expireAt {
        drained := false;
      }
      committed := |readLog|;
      cleaned := drained;
      p := whole;
    }

    /** A whole run: everything read, acknowledged, counted and committed is what `RunSpec` says,
        and the position committed at the end lies behind every batch read, lost or not. */
    method Run() returns (ghost r: WholeRun)
      requires Quiet(env) && clock == 0 && Logged([])
      modifies this
      ensures r == RunSpec(env, if old(stopRequested) then 0 else stopAt, transforms)
      ensures var outs := r.main.outs + r.drain.outs;
              readLog == Batches(outs) && output == Delivered(transforms, outs) && sent == |output|
      ensures committed == |readLog| && cleaned == r.drain.ok
    {
      var stop := if stopRequested then 0 else stopAt;
      ghost var m := RunLoop(stop);
      ghost var d := Shutdown(m.outs);
      r := WholeRun(m, d);
    }
  }
}
