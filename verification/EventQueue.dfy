/** The event input's bounded queue with its separately updated lag counter: any number of
    namespace producers and one reader, where sending, receiving and each counter update are
    separate steps. */
module EventQueue {
  import opened EventWatch

  const CAPACITY := 1000

  /** `adding` are the producers that have sent and not yet incremented the counter; `taking` says
      that the reader has received and not yet decremented it.  `sent` and `received` are the
      histories. */
  datatype Queue = Queue(producers: set<nat>, queue: seq<Item>, lag: int, adding: set<nat>, taking: bool,
                         sent: seq<Item>, received: seq<Item>)

  datatype QStep = Send(who: nat, item: Item) | Increment(who: nat) | Receive | Decrement

  function QNext(q: Queue, s: QStep): Queue {
    match s
    case Send(who, item) =>
      if who in q.producers && who !in q.adding && |q.queue| < CAPACITY
      then q.(queue := q.queue + [item], adding := q.adding + {who}, sent := q.sent + [item]) else q
    case Increment(who) => if who in q.adding then q.(lag := q.lag + 1, adding := q.adding - {who}) else q
    case Receive =>
      if !q.taking && q.queue != []
      then q.(queue := q.queue[1..], taking := true, received := q.received + [q.queue[0]]) else q
    case Decrement => if q.taking then q.(lag := q.lag - 1, taking := false) else q
  }

  function QExec(producers: set<nat>, steps: seq<QStep>): Queue {
    if steps == [] then Queue(producers, [], 0, {}, false, [], [])
    else QNext(QExec(producers, steps[..|steps| - 1]), steps[|steps| - 1])
  }

  ghost predicate Balanced(q: Queue) {
    && q.adding <= q.producers
    && q.lag == |q.queue| - |q.adding| + (if q.taking then 1 else 0)
    && |q.queue| <= CAPACITY
    && q.received + q.queue == q.sent
  }

  lemma QNextKeeps(q: Queue, s: QStep)
    requires Balanced(q)
    ensures Balanced(QNext(q, s))
  {
    if s.Receive? && !q.taking && q.queue != [] {
      assert q.received + [q.queue[0]] + q.queue[1..] == q.received + q.queue;
    } else if s.Send? {
      assert q.received + (q.queue + [s.item]) == q.received + q.queue + [s.item];
    }
  }

  lemma SubsetSize(a: set<nat>, b: set<nat>)
    requires a <= b
    ensures |a| <= |b|
  {
    assert a + (b - a) == b;
  }

  /** In every reachable state the counter is the queue length, less the increments and plus the
      decrement still to come; so it stays within its bounds, is exact when nothing is pending,
      and every item sent is received once and in order or still queued. */
  lemma {:induction false} LagTheorem(producers: set<nat>, steps: seq<QStep>)
    ensures var q := QExec(producers, steps);
            && Balanced(q) && q.producers == producers
            && -|producers| <= q.lag <= 1001
            && (q.adding == {} && !q.taking ==> q.lag == |q.queue|)
    decreases |steps|
  {
    if steps != [] {
      LagTheorem(producers, steps[..|steps| - 1]);
      QNextKeeps(QExec(producers, steps[..|steps| - 1]), steps[|steps| - 1]);
    }
    var q := QExec(producers, steps);
    SubsetSize(q.adding, producers);
  }

  // ---------------------------------------------------------------- the reader's side

  /** The version of the last record that carries one. */
  function NewestRead(records: seq<Item>, otherwise: nat): nat {
    if records == [] then otherwise
    else
      var n := |records| - 1;
      if records[n].version != 0 then records[n].version else NewestRead(records[..n], otherwise)
  }

  /** It is the version of the last record with one, and stays as it was if there is none. */
  lemma {:induction false} NewestReadExact(records: seq<Item>, otherwise: nat, i: nat)
    requires i < |records| ==> records[i].version != 0
    requires forall j :: i < j < |records| ==> records[j].version == 0
    requires i >= |records| ==> forall j :: 0 <= j < |records| ==> records[j].version == 0
    ensures NewestRead(records, otherwise) == if i < |records| then records[i].version else otherwise
    decreases |records|
  {
    if records != [] && records[|records| - 1].version == 0 {
      var n := |records| - 1;
      NewestReadExact(records[..n], otherwise, if i < n then i else n);
    }
  }

  // ---------------------------------------------------------------- the queue moves

  /** `n` times the reader receives an item and counts it. */
  function Reads(q: Queue, n: nat): Queue
    decreases n
  {
    if n == 0 then q else Reads(QNext(QNext(q, QStep.Receive), Decrement), n - 1)
  }

  /** The reader empties the queue, whatever the producers have still to count. */
  lemma {:induction false} ReadsEmpty(q: Queue)
    requires !q.taking
    ensures var q' := Reads(q, |q.queue|);
            && q'.queue == [] && q'.received == q.received + q.queue && q'.sent == q.sent
            && q'.lag == q.lag - |q.queue| && q'.adding == q.adding && !q'.taking && q'.producers == q.producers
    decreases |q.queue|
  {
    if q.queue == [] {
      assert q.received + [] == q.received;
    } else {
      var q1 := QNext(QNext(q, QStep.Receive), Decrement);
      ReadsEmpty(q1);
      assert q.received + [q.queue[0]] + q.queue[1..] == q.received + q.queue;
    }
  }

  /** A producer that has counted its last item can send the next one if and only if the queue is
      not full, and the two steps raise queue and counter by one. */
  lemma SendExact(q: Queue, who: nat, item: Item)
    requires who in q.producers && who !in q.adding
    ensures var q' := QNext(QNext(q, Send(who, item)), Increment(who));
            if |q.queue| < 1000
            then q' == q.(queue := q.queue + [item], sent := q.sent + [item], lag := q.lag + 1) else q' == q
  {
  }

  class EventInput {
    var queue: seq<Item>
    var lag: int
    var lastVersion: nat
    var readVersion: nat
    /** Whether a path for the version file is configured, and the version in it. */
    const hasPath: bool
    var saved: nat

    constructor (hasPath: bool, saved: nat)
      ensures queue == [] && lag == 0 && readVersion == 0 && this.hasPath == hasPath && this.saved == saved
      ensures lastVersion == if hasPath then saved else 0
    {
      queue, lag, readVersion, this.hasPath, this.saved := [], 0, 0, hasPath, saved;
      lastVersion := if hasPath then saved else 0;
    }

    /** Takes at most `size` items without waiting; `cut(i)` says that the context was found done
        before item `i`. */
    method ReadBatch(size: nat, cut: nat -> bool) returns (records: seq<Item>)
      modifies `queue, `lag, `readVersion
      ensures |records| <= size && records + queue == old(queue)
      ensures lag == old(lag) - |records|
      ensures |records| < size ==> queue == [] || cut(|records|)
      ensures readVersion == NewestRead(records, old(readVersion))
    {
      records := [];
      while |records| < size
        invariant |records| <= size && records + queue == old(queue)
        invariant lag == old(lag) - |records|
        invariant readVersion == NewestRead(records, old(readVersion))
      {
        if cut(|records|) || queue == [] {
          return;
        }
        var r := queue[0];
        assert (records + [r])[..|records|] == records;
        records, queue := records + [r], queue[1..];
        if r.version != 0 {
          readVersion := r.version;
        }
        lag := lag - 1;
      }
    }

    /** Persists the version of the last record read, or of the last event seen if none was.  With
        no path or no version there is nothing to do; `written` says whether the new file could be
        put in place of the old one, and a failure leaves the old one and is reported. */
    method Commit(written: bool) returns (failed: bool)
      modifies `saved
      ensures var v := if readVersion != 0 then readVersion else lastVersion;
              && failed == (hasPath && v != 0 && !written)
              && saved == if hasPath && v != 0 && written then v else old(saved)
    {
      var v := readVersion;
      if v == 0 {
        v := lastVersion;
      }
      if !hasPath || v == 0 {
        return false;
      }
      if !written {
        return true;
      }
      saved := v;
      return false;
    }
  }
}
