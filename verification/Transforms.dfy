/** The json, label and drop transforms, in place on a batch's backing array, and the chain the
    runner applies.  Every transform works record by record, so cutting a stream into batches
    does not change its result. */
module Transforms {
  import opened Lines
  import opened Basics

  type Fields = map<string, string>

  /** `meta` is None for a nil map. */
  datatype Record = Record(data: Bytes, meta: Option<Fields>)

  /** `parse` is the JSON decoder: the flat string map in `data`, or None. */
  datatype Transform =
    | Json(parse: Bytes -> Option<Fields>)
    | Label(fields: Fields)
    | Drop(key: string, value: string)

  function Meta(r: Record): Fields {
    if r.meta.Some? then r.meta.value else map[]
  }

  /** Reading a missing key gives the empty string. */
  function Lookup(m: Fields, key: string): string {
    if key in m then m[key] else ""
  }

  /** What becomes of one record. */
  function ApplyOne(t: Transform, r: Record): (out: seq<Record>)
    ensures |out| <= 1
  {
    match t
    case Json(parse) => if parse(r.data).Some? then [r.(meta := Some(Meta(r) + parse(r.data).value))] else [r]
    case Label(fields) => [r.(meta := Some(Meta(r) + fields))]
    case Drop(key, value) => if Lookup(Meta(r), key) == value then [] else [r]
  }

  function Apply(t: Transform, rs: seq<Record>): (out: seq<Record>)
    ensures |out| <= |rs|
  {
    if rs == [] then [] else Apply(t, rs[..|rs| - 1]) + ApplyOne(t, rs[|rs| - 1])
  }

  function Chain(ts: seq<Transform>, rs: seq<Record>): (out: seq<Record>)
    ensures |out| <= |rs|
  {
    if ts == [] then rs else Chain(ts[1..], Apply(ts[0], rs))
  }

  /** What the whole chain leaves of one record: nothing, or one record. */
  function Survivor(ts: seq<Transform>, r: Record): (out: seq<Record>)
    ensures |out| <= 1
  {
    Chain(ts, [r])
  }

  function Flatten(bs: seq<seq<Record>>): seq<Record> {
    if bs == [] then [] else bs[0] + Flatten(bs[1..])
  }

  function ChainEach(ts: seq<Transform>, bs: seq<seq<Record>>): seq<seq<Record>> {
    if bs == [] then [] else [Chain(ts, bs[0])] + ChainEach(ts, bs[1..])
  }

  function Survivors(ts: seq<Transform>, rs: seq<Record>): seq<Record> {
    if rs == [] then [] else Survivor(ts, rs[0]) + Survivors(ts, rs[1..])
  }

  // ---------------------------------------------------------------- one record

  /** The fields a transform adds to a record. */
  function Added(t: Transform, r: Record): Fields {
    match t
    case Json(parse) => if parse(r.data).Some? then parse(r.data).value else map[]
    case Label(fields) => fields
    case Drop(_, _) => map[]
  }

  /** `q` is `r` with the fields `more`, which replace those of the same name. */
  ghost predicate Extended(q: Record, r: Record, more: Fields) {
    && q.data == r.data
    && (forall k :: k in Meta(q) <==> k in Meta(r) || k in more)
    && (forall k :: k in Meta(q) ==> Meta(q)[k] == if k in more then more[k] else Meta(r)[k])
  }

  /** A record disappears only through a drop whose key has the given value, where a missing key
      counts as empty; otherwise exactly the transform's fields are added. */
  lemma OneMeans(t: Transform, r: Record)
    ensures ApplyOne(t, r) == [] <==> t.Drop? && Lookup(Meta(r), t.key) == t.value
    ensures ApplyOne(t, r) != [] ==> |ApplyOne(t, r)| == 1 && Extended(ApplyOne(t, r)[0], r, Added(t, r))
  {
  }

  /** Through a whole chain the data of a record never changes and no field disappears. */
  lemma {:induction false} SurvivorKeeps(ts: seq<Transform>, r: Record)
    ensures forall q :: q in Survivor(ts, r) ==> q.data == r.data && Meta(r).Keys <= Meta(q).Keys
    decreases |ts|
  {
    if ts != [] {
      var t := ts[0];
      OneMeans(t, r);
      assert [r][..0] == [] && Apply(t, [r]) == [] + ApplyOne(t, r);
      if ApplyOne(t, r) == [] {
        ChainEmpty(ts[1..]);
      } else {
        var q := ApplyOne(t, r)[0];
        assert Apply(t, [r]) == [q];
        SurvivorKeeps(ts[1..], q);
      }
    }
  }

  // ---------------------------------------------------------------- one record through all transforms

  /** The transform drops the record. */
  predicate Drops(t: Transform, r: Record) {
    t.Drop? && Lookup(Meta(r), t.key) == t.value
  }

  /** `q` is what the transform makes of `r`: the transform's fields are added, and a missing map
      comes into being unless the transform is a drop or could not decode the record. */
  ghost predicate Becomes(t: Transform, r: Record, q: Record) {
    && Extended(q, r, Added(t, r))
    && (q.meta.None? <==> r.meta.None? && (t.Drop? || (t.Json? && t.parse(r.data).None?)))
  }

  /** `qs` is the record on its way: it enters as `r`, and each transform in turn, which does not
      drop it, makes the next of `qs` out of it. */
  ghost predicate Trail(ts: seq<Transform>, r: Record, qs: seq<Record>) {
    && 0 < |qs| <= |ts| + 1 && qs[0] == r
    && forall i :: 0 <= i < |qs| - 1 ==> !Drops(ts[i], qs[i]) && Becomes(ts[i], qs[i], qs[i + 1])
  }

  lemma SameRecord(t: Transform, r: Record, p: Record, q: Record)
    requires Becomes(t, r, p) && Becomes(t, r, q)
    ensures p == q
  {
    assert Meta(p) == Meta(q);
  }

  lemma OneExact(t: Transform, r: Record)
    ensures if Drops(t, r) then ApplyOne(t, r) == []
            else exists q :: ApplyOne(t, r) == [q] && Becomes(t, r, q)
  {
    if !Drops(t, r) {
      var q := ApplyOne(t, r)[0];
      assert ApplyOne(t, r) == [q] && Becomes(t, r, q);
    }
  }

  /** The record reaches the end of its way as the last of `qs`, or the next transform drops it. */
  ghost predicate Arrives(ts: seq<Transform>, r: Record, qs: seq<Record>) {
    Trail(ts, r, qs) && |qs| == |ts| + 1
  }

  ghost predicate DroppedOn(ts: seq<Transform>, r: Record, qs: seq<Record>) {
    Trail(ts, r, qs) && |qs| <= |ts| && Drops(ts[|qs| - 1], qs[|qs| - 1])
  }

  lemma FirstOfChain(ts: seq<Transform>, r: Record, q: Record)
    requires ts != []
    ensures ApplyOne(ts[0], r) == [] ==> Survivor(ts, r) == []
    ensures ApplyOne(ts[0], r) == [q] ==> Survivor(ts, r) == Survivor(ts[1..], q)
  {
    hide ApplyOne;
    var one := ApplyOne(ts[0], r);
    assert [r][..0] == [] && Apply(ts[0], [r]) == [] + one;
    assert [] + one == one;
    ChainEmpty(ts[1..]);
  }

  lemma TrailRest(ts: seq<Transform>, r: Record, qs: seq<Record>)
    requires |qs| > 1 && ts != []
    ensures Trail(ts, r, qs) <==>
            qs[0] == r && !Drops(ts[0], r) && Becomes(ts[0], r, qs[1]) && Trail(ts[1..], qs[1], qs[1..])
  {
    hide Becomes, Drops;
    var rest := qs[1..];
    assert forall i :: 0 <= i < |rest| ==> rest[i] == qs[i + 1];
    assert forall i :: 0 <= i < |ts| - 1 ==> ts[1..][i] == ts[i + 1];
    if qs[0] == r && Trail(ts[1..], qs[1], rest) && !Drops(ts[0], r) && Becomes(ts[0], r, qs[1]) {
      forall i | 0 <= i < |qs| - 1 ensures !Drops(ts[i], qs[i]) && Becomes(ts[i], qs[i], qs[i + 1]) {
        if i > 0 {
          assert !Drops(ts[1..][i - 1], rest[i - 1]) && Becomes(ts[1..][i - 1], rest[i - 1], rest[i]);
        }
      }
    }
    if Trail(ts, r, qs) {
      forall i | 0 <= i < |rest| - 1 ensures !Drops(ts[1..][i], rest[i]) && Becomes(ts[1..][i], rest[i], rest[i + 1]) {
        assert !Drops(ts[i + 1], qs[i + 1]) && Becomes(ts[i + 1], qs[i + 1], qs[i + 2]);
      }
    }
  }

  lemma WayRest(ts: seq<Transform>, r: Record, qs: seq<Record>)
    requires |qs| > 1 && ts != [] && qs[0] == r && !Drops(ts[0], r) && Becomes(ts[0], r, qs[1])
    ensures Arrives(ts, r, qs) <==> Arrives(ts[1..], qs[1], qs[1..])
    ensures DroppedOn(ts, r, qs) <==> DroppedOn(ts[1..], qs[1], qs[1..])
  {
    hide Trail, Becomes, Drops;
    TrailRest(ts, r, qs);
  }

  lemma WayFirst(ts: seq<Transform>, r: Record, qs: seq<Record>)
    requires Arrives(ts, r, qs) || DroppedOn(ts, r, qs)
    ensures qs != [] && qs[0] == r
    ensures ts == [] ==> qs == [r] && Arrives(ts, r, qs) && !DroppedOn(ts, r, qs)
    ensures ts != [] && |qs| == 1 ==> Drops(ts[0], r) && DroppedOn(ts, r, qs) && !Arrives(ts, r, qs)
    ensures |qs| > 1 ==> ts != [] && !Drops(ts[0], r) && Becomes(ts[0], r, qs[1])
  {
    hide Becomes, Drops;
  }

  /** What becomes of one record: every transform is applied, in order, until one drops it. */
  lemma {:induction false} SurvivorExact(ts: seq<Transform>, r: Record, qs: seq<Record>)
    ensures Arrives(ts, r, qs) ==> Survivor(ts, r) == [qs[|ts|]]
    ensures DroppedOn(ts, r, qs) ==> Survivor(ts, r) == []
    decreases |ts|
  {
    if Arrives(ts, r, qs) || DroppedOn(ts, r, qs) {
      WayFirst(ts, r, qs);
      if ts != [] {
        hide Becomes, Drops, ApplyOne, Survivor, Trail;
        OneExact(ts[0], r);
        if |qs| == 1 {
          FirstOfChain(ts, r, r);
        } else {
          var q :| ApplyOne(ts[0], r) == [q] && Becomes(ts[0], r, q);
          SameRecord(ts[0], r, q, qs[1]);
          FirstOfChain(ts, r, q);
          WayRest(ts, r, qs);
          SurvivorExact(ts[1..], q, qs[1..]);
        }
      }
    }
  }

  /** Every record goes its way to the end or to the first transform that drops it. */
  lemma {:induction false} WayExists(ts: seq<Transform>, r: Record)
    ensures exists qs :: Arrives(ts, r, qs) || DroppedOn(ts, r, qs)
    decreases |ts|
  {
    if ts == [] {
      assert Arrives(ts, r, [r]);
    } else if Drops(ts[0], r) {
      assert DroppedOn(ts, r, [r]);
    } else {
      hide Becomes, Drops, ApplyOne, Trail, Arrives, DroppedOn;
      OneExact(ts[0], r);
      var q :| ApplyOne(ts[0], r) == [q] && Becomes(ts[0], r, q);
      WayExists(ts[1..], q);
      var qs :| Arrives(ts[1..], q, qs) || DroppedOn(ts[1..], q, qs);
      var all := [r] + qs;
      assert qs != [] && qs[0] == q by { WayFirst(ts[1..], q, qs); }
      assert all[1..] == qs && all[1] == q;
      WayRest(ts, r, all);
    }
  }

  /** So a record disappears if and only if some transform drops what the ones before it made of
      the record. */
  lemma {:induction false} DroppedExact(ts: seq<Transform>, r: Record)
    ensures Survivor(ts, r) == [] <==> exists qs :: DroppedOn(ts, r, qs)
  {
    hide Survivor, Arrives, DroppedOn;
    WayExists(ts, r);
    var way :| Arrives(ts, r, way) || DroppedOn(ts, r, way);
    forall qs ensures DroppedOn(ts, r, qs) ==> Survivor(ts, r) == [] {
      SurvivorExact(ts, r, qs);
    }
    ArrivesLength(ts, r, way);
    SurvivorExact(ts, r, way);
  }

  lemma ArrivesLength(ts: seq<Transform>, r: Record, qs: seq<Record>)
    ensures Arrives(ts, r, qs) ==> |qs| == |ts| + 1
  {
  }

  // ---------------------------------------------------------------- batching

  lemma {:induction false} ApplyConcat(t: Transform, a: seq<Record>, b: seq<Record>)
    ensures Apply(t, a + b) == Apply(t, a) + Apply(t, b)
    decreases |b|
  {
    if b == [] {
      assert a + b == a;
    } else {
      var n := |b| - 1;
      assert (a + b)[..|a + b| - 1] == a + b[..n];
      ApplyConcat(t, a, b[..n]);
      hide ApplyOne;
      Assoc(Apply(t, a), Apply(t, b[..n]), ApplyOne(t, b[n]));
    }
  }

  lemma {:induction false} ChainConcat(ts: seq<Transform>, a: seq<Record>, b: seq<Record>)
    ensures Chain(ts, a + b) == Chain(ts, a) + Chain(ts, b)
    decreases |ts|
  {
    if ts != [] {
      ApplyConcat(ts[0], a, b);
      ChainConcat(ts[1..], Apply(ts[0], a), Apply(ts[0], b));
    }
  }

  lemma {:induction false} ChainEmpty(ts: seq<Transform>)
    ensures Chain(ts, []) == []
  {
  }

  /** However the stream is cut into batches, the concatenated results are the chain applied to
      the whole stream. */
  lemma {:induction false} BatchingIrrelevant(ts: seq<Transform>, bs: seq<seq<Record>>)
    ensures Flatten(ChainEach(ts, bs)) == Chain(ts, Flatten(bs))
    decreases |bs|
  {
    if bs == [] {
      ChainEmpty(ts);
    } else {
      BatchingIrrelevant(ts, bs[1..]);
      ChainConcat(ts, bs[0], Flatten(bs[1..]));
      assert ChainEach(ts, bs)[1..] == ChainEach(ts, bs[1..]);
    }
  }

  /** The chain is a filter-map: it keeps order and treats each record on its own. */
  lemma {:induction false} ChainIsPerRecord(ts: seq<Transform>, rs: seq<Record>)
    ensures Chain(ts, rs) == Survivors(ts, rs)
    decreases |rs|
  {
    if rs == [] {
      ChainEmpty(ts);
    } else {
      ChainConcat(ts, [rs[0]], rs[1..]);
      assert [rs[0]] + rs[1..] == rs;
      ChainIsPerRecord(ts, rs[1..]);
    }
  }

  // ---------------------------------------------------------------- in place

  lemma ApplyNone(t: Transform, rs: seq<Record>)
    ensures Apply(t, rs[..0]) == []
  {
  }

  lemma ApplyNext(t: Transform, rs: seq<Record>, i: nat)
    requires i < |rs|
    ensures Apply(t, rs[..i + 1]) == Apply(t, rs[..i]) + ApplyOne(t, rs[i])
  {
    assert rs[..i + 1][..i] == rs[..i];
  }

  /** Refills the front of the same backing array.  The write position never passes the read
      position, so no unread record is overwritten. */
  method DropInPlace(a: array<Record>, n: nat, key: string, value: string) returns (k: nat)
    requires n <= a.Length
    modifies a
    ensures k <= n && a[..k] == Apply(Drop(key, value), old(a[..n]))
    ensures forall j :: k <= j < a.Length ==> a[j] == old(a[j])
  {
    hide Apply;
    k := 0;
    ghost var was := a[..n];
    ApplyNone(Drop(key, value), was);
    for i := 0 to n
      invariant k <= i
      invariant a[..k] == Apply(Drop(key, value), was[..i])
      invariant forall j :: k <= j < a.Length ==> a[j] == old(a[j])
    {
      var r := a[i];
      ApplyNext(Drop(key, value), was, i);
      ghost var front := a[..k];
      if Lookup(Meta(r), key) != value {
        a[k] := r;
        k := k + 1;
        assert a[..k] == front + [r];
      }
    }
    assert was[..n] == was;
  }

  /** Rewrites every record's fields; no record is added or removed. */
  method MapInPlace(a: array<Record>, n: nat, t: Transform)
    requires n <= a.Length && !t.Drop?
    modifies a
    ensures a[..n] == Apply(t, old(a[..n]))
    ensures forall j :: n <= j < a.Length ==> a[j] == old(a[j])
  {
    hide Apply;
    ghost var was := a[..n];
    ApplyNone(t, was);
    for i := 0 to n
      invariant a[..i] == Apply(t, was[..i])
      invariant forall j :: i <= j < a.Length ==> a[j] == old(a[j])
    {
      ApplyNext(t, was, i);
      ghost var front := a[..i];
      match t
      case Label(fields) =>
        a[i] := a[i].(meta := Some(Meta(a[i]) + fields));
      case Json(parse) =>
        var m := parse(a[i].data);
        if m.Some? {
          a[i] := a[i].(meta := Some(Meta(a[i]) + m.value));
        }
      assert a[..i + 1] == front + [a[i]];
    }
    assert was[..n] == was;
  }

  /** `applyTransforms`: the transforms in turn, giving up the batch as soon as it is empty. */
  method ApplyTransforms(ts: seq<Transform>, a: array<Record>, n: nat) returns (k: nat)
    requires n <= a.Length
    modifies a
    ensures k <= n && a[..k] == Chain(ts, old(a[..n]))
  {
    k := n;
    for i := 0 to |ts|
      invariant k <= n
      invariant Chain(ts[i..], a[..k]) == Chain(ts, old(a[..n]))
    {
      hide Apply;
      var t := ts[i];
      assert ts[i..][1..] == ts[i + 1..];
      if t.Drop? {
        k := DropInPlace(a, k, t.key, t.value);
      } else {
        MapInPlace(a, k, t);
      }
      if k == 0 {
        ChainEmpty(ts[i + 1..]);
        return;
      }
    }
  }
}
