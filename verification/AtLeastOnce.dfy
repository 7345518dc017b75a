/** The runner's main loop over the directory reader, killed at any point and restarted from the
    state file, as often as one likes, with commits that may silently fail.  On an unchanging
    directory every record that survives the transforms is acknowledged at least once up to the
    furthest position processed, and a record is acknowledged again only if it lies behind the
    position that was persisted when the process was restarted. */
module AtLeastOnce {
  import opened Lines
  import opened Basics
  import opened DirReader
  import opened DirStream
  import opened DirRestart
  import opened Transforms

  /** The fixed surroundings: directory, start mode, transforms, and the state file found at
      the first start. */
  datatype World = World(d: Dir, from: Start, ts: seq<Transform>, first: Saved)

  ghost predicate Readable(w: World) {
    Healthy(w.d) && Settled(Load(w.first), w.d)
  }

  /** The stream of lines that the agent has to deliver. */
  ghost function Stream(w: World): seq<Bytes> {
    Remaining(Load(w.first), w.d, w.from)
  }

  ghost predicate Survives(w: World, i: nat)
    requires i < |Stream(w)|
  {
    Survivor(w.ts, Record(Stream(w)[i], None)) != []
  }

  /** Where the main loop stands: about to read, holding a batch read from position `lo` of the
      stream on, or having written one. */
  datatype Stage = Ready | Holding(lo: nat, batch: seq<Bytes>) | Written

  /** An acknowledged record: in which life of the process, and its position in the stream. */
  datatype Ack = Ack(life: nat, index: nat)

  /** The process and its state file, with the histories the theorem speaks about: `pos` and
      `savedPos` are the stream positions of the reader and of the state file, `reached` is the
      furthest position processed, and `starts[l]` is where life `l` began. */
  datatype Agent = Agent(reader: Reader, saved: Saved, stage: Stage, output: seq<Record>,
                         pos: nat, savedPos: nat, reached: nat, life: nat, starts: seq<nat>, acks: seq<Ack>)

  function Boot(w: World): Agent {
    Agent(Load(w.first), w.first, Ready, [], 0, 0, 0, 0, [0], [])
  }

  datatype Step =
    | Read(size: nat, cut: nat -> bool)
    | Process
    | Commit(written: bool)
    | Crash

  function Lift(lines: seq<Bytes>): (rs: seq<Record>)
    ensures |rs| == |lines| && forall i :: 0 <= i < |rs| ==> rs[i] == Record(lines[i], None)
  {
    seq(|lines|, i requires 0 <= i < |lines| => Record(lines[i], None))
  }

  /** The acknowledgements for the surviving records of the stream from `lo` to `hi`. */
  ghost function AcksFor(w: World, life: nat, lo: nat, hi: nat): seq<Ack>
    decreases hi - lo
  {
    if lo >= hi || lo >= |Stream(w)| then []
    else (if Survives(w, lo) then [Ack(life, lo)] else []) + AcksFor(w, life, lo + 1, hi)
  }

  /** One step of the main loop, or a crash; a step that does not fit the stage does nothing. */
  ghost function Next(w: World, a: Agent, s: Step): (a': Agent)
    requires Inodes(w.d) && OnFile(a.reader, w.d)
    ensures OnFile(a'.reader, w.d)
  {
    match s
    case Read(size, cut) =>
      if !a.stage.Ready? then a
      else
        var b := ReadBatch(a.reader, w.d, w.from, size, cut, 0);
        a.(reader := b.r, pos := a.pos + |b.out|, stage := if b.out == [] then Ready else Holding(a.pos, b.out))
    case Process =>
      if !a.stage.Holding? then a
      else
        var out := Chain(w.ts, Lift(a.stage.batch));
        a.(stage := if out == [] then Ready else Written, output := a.output + out,
           reached := if a.reached < a.pos then a.pos else a.reached,
           acks := a.acks + AcksFor(w, a.life, a.stage.lo, a.pos))
    case Commit(written) =>
      if !a.stage.Written? then a
      else
        var a' := a.(reader := a.reader.(done := Prune(a.reader.done, w.d)), stage := Ready);
        if written then a'.(saved := Save(a.reader, w.d), savedPos := a.pos) else a'
    case Crash =>
      a.(reader := Load(a.saved), pos := a.savedPos, stage := Ready, life := a.life + 1,
         starts := a.starts + [a.savedPos])
  }

  ghost function Exec(w: World, steps: seq<Step>): (a: Agent)
    requires Inodes(w.d)
    ensures OnFile(a.reader, w.d)
  {
    if steps == [] then Boot(w) else Next(w, Exec(w, steps[..|steps| - 1]), steps[|steps| - 1])
  }

  // ---------------------------------------------------------------- the invariant

  /** The position up to which the current life has processed the stream. */
  function Processed(a: Agent): nat {
    if a.stage.Holding? then a.stage.lo else a.pos
  }

  /** The reader and the state file stand where `pos` and `savedPos` say. */
  ghost predicate Placed(w: World, a: Agent) {
    && Settled(a.reader, w.d) && Settled(Load(a.saved), w.d)
    && a.savedPos <= Processed(a) <= a.pos <= |Stream(w)|
    && Remaining(a.reader, w.d, w.from) == Stream(w)[a.pos..]
    && Remaining(Load(a.saved), w.d, w.from) == Stream(w)[a.savedPos..]
    && (a.stage.Holding? ==> a.stage.batch == Stream(w)[a.stage.lo..a.pos])
    && Processed(a) <= a.reached <= |Stream(w)|
  }

  ghost predicate Has(acks: seq<Ack>, i: nat) {
    exists k :: 0 <= k < |acks| && acks[k].index == i
  }

  ghost predicate Covered(w: World, a: Agent) {
    a.reached <= |Stream(w)| && forall i: nat :: i < a.reached && Survives(w, i) ==> Has(a.acks, i)
  }

  /** Acknowledgements of one life are in stream order and lie behind its start. */
  ghost predicate Ordered(a: Agent) {
    && |a.starts| == a.life + 1 && a.starts[a.life] <= Processed(a)
    && (forall k :: 0 <= k < |a.acks| ==>
          a.acks[k].life <= a.life && a.starts[a.acks[k].life] <= a.acks[k].index
          && (a.acks[k].life == a.life ==> a.acks[k].index < Processed(a)))
    && (forall j, k :: 0 <= j < k < |a.acks| ==>
          a.acks[j].life < a.acks[k].life || (a.acks[j].life == a.acks[k].life && a.acks[j].index < a.acks[k].index))
  }

  ghost function OutputOf(w: World, acks: seq<Ack>): seq<Record> {
    if acks == [] then []
    else OutputOf(w, acks[..|acks| - 1]) + OutputAt(w, acks[|acks| - 1].index)
  }

  ghost function OutputAt(w: World, i: nat): seq<Record> {
    if i < |Stream(w)| then Survivor(w.ts, Record(Stream(w)[i], None)) else []
  }

  ghost predicate Inv(w: World, a: Agent) {
    Placed(w, a) && Covered(w, a) && Ordered(a) && a.output == OutputOf(w, a.acks)
  }

  // ---------------------------------------------------------------- positions

  lemma BootPlaced(w: World)
    requires Readable(w)
    ensures Placed(w, Boot(w))
  {
    assert Stream(w)[0..] == Stream(w);
  }

  lemma ReadPlaced(w: World, a: Agent, size: nat, cut: nat -> bool)
    requires Readable(w) && Placed(w, a) && a.stage.Ready?
    ensures Placed(w, Next(w, a, Read(size, cut)))
  {
    hide ReadBatch, Remaining, Settled, Healthy, Stream, Inodes, OnFile;
    ReadyToRead(a.reader, w.d);
    BatchKeeps(a.reader, w.d, w.from, size, cut, 0);
    var b := ReadBatch(a.reader, w.d, w.from, size, cut, 0);
    Cutting(Stream(w), a.pos, b.out, Remaining(b.r, w.d, w.from));
  }

  lemma Cutting(s: seq<Bytes>, k: nat, out: seq<Bytes>, rest: seq<Bytes>)
    requires k <= |s| && s[k..] == out + rest
    ensures k + |out| <= |s| && s[k..k + |out|] == out && s[k + |out|..] == rest
  {
    assert |s[k..]| == |out| + |rest|;
    assert s[k..k + |out|] == s[k..][..|out|] == out;
    assert s[k + |out|..] == s[k..][|out|..] == rest;
  }

  lemma CommitPlaced(w: World, a: Agent, written: bool)
    requires Readable(w) && Placed(w, a) && a.stage.Written?
    ensures Placed(w, Next(w, a, Commit(written)))
  {
    PrunedRemaining(a.reader, w.d, w.from);
    ReloadRemaining(a.reader, w.d, w.from);
    hide Remaining, Settled, Healthy, Stream, Prune;
  }

  lemma PrunedRemaining(r: Reader, d: Dir, from: Start)
    requires Healthy(d) && Settled(r, d)
    ensures var r' := r.(done := Prune(r.done, d));
            Settled(r', d) && Remaining(r', d, from) == Remaining(r, d, from)
  {
    var r' := r.(done := Prune(r.done, d));
    assert forall p :: p in d.files ==> d.files[p].inode in PresentInodes(d);
    if r.file != "" {
      assert Unread(r', d) == Unread(r, d);
    } else if d.order != [] {
      var f := StartFile(d, from);
      assert Unread(r'.(file := f), d) == Unread(r.(file := f), d);
    }
  }

  // ---------------------------------------------------------------- acknowledgements

  ghost predicate Rising(acks: seq<Ack>, life: nat, lo: nat, hi: nat) {
    && (forall k :: 0 <= k < |acks| ==> acks[k].life == life && lo <= acks[k].index < hi)
    && (forall j, k :: 0 <= j < k < |acks| ==> acks[j].index < acks[k].index)
  }

  lemma RisingCons(head: seq<Ack>, rest: seq<Ack>, life: nat, lo: nat, hi: nat)
    requires head == [] || head == [Ack(life, lo)]
    requires lo < hi && Rising(rest, life, lo + 1, hi)
    ensures Rising(head + rest, life, lo, hi)
  {
    var acks := head + rest;
    assert forall k :: |head| <= k < |acks| ==> acks[k] == rest[k - |head|];
  }

  lemma {:induction false} AcksForOrdered(w: World, life: nat, lo: nat, hi: nat)
    requires lo <= hi <= |Stream(w)|
    ensures Rising(AcksFor(w, life, lo, hi), life, lo, hi)
    decreases hi - lo
  {
    hide Stream, Survives;
    if lo < hi {
      AcksForOrdered(w, life, lo + 1, hi);
      RisingCons(if Survives(w, lo) then [Ack(life, lo)] else [], AcksFor(w, life, lo + 1, hi), life, lo, hi);
    }
  }

  lemma {:induction false} AcksForAll(w: World, life: nat, lo: nat, hi: nat, i: nat)
    requires lo <= i < hi <= |Stream(w)| && Survives(w, i)
    ensures Has(AcksFor(w, life, lo, hi), i)
    decreases hi - lo
  {
    hide Stream, Survives;
    var rest := AcksFor(w, life, lo + 1, hi);
    var more := AcksFor(w, life, lo, hi);
    if i == lo {
      assert more[0].index == lo;
    } else {
      AcksForAll(w, life, lo + 1, hi, i);
      var k :| 0 <= k < |rest| && rest[k].index == i;
      assert more[|more| - |rest| + k] == rest[k];
    }
  }

  lemma {:induction false} ProcessOrdered(w: World, a: Agent)
    requires Placed(w, a) && Covered(w, a) && Ordered(a) && a.stage.Holding?
    requires Inodes(w.d) && OnFile(a.reader, w.d)
    ensures var a' := Next(w, a, Process);
            Ordered(a') && Covered(w, a')
  {
    hide Stream, Survives, Remaining, Settled, Chain, Lift;
    AcksForOrdered(w, a.life, a.stage.lo, a.pos);
    var a' := Next(w, a, Process);
    var more := AcksFor(w, a.life, a.stage.lo, a.pos);
    var n := |a.acks|;
    hide AcksFor;
    assert a'.acks == a.acks + more;
    forall i: nat | i < a'.reached && Survives(w, i) ensures Has(a'.acks, i) {
      if i < a.reached {
        var k :| 0 <= k < n && a.acks[k].index == i;
        assert a'.acks[k].index == i;
      } else {
        AcksForAll(w, a.life, a.stage.lo, a.pos, i);
        var k :| 0 <= k < |more| && more[k].index == i;
        assert a'.acks[n + k].index == i;
      }
    }
  }

  lemma {:induction false} OutputConcat(w: World, xs: seq<Ack>, ys: seq<Ack>)
    ensures OutputOf(w, xs + ys) == OutputOf(w, xs) + OutputOf(w, ys)
    decreases |ys|
  {
    hide OutputAt;
    if ys == [] {
      assert xs + ys == xs;
    } else {
      var n := |ys| - 1;
      assert (xs + ys)[..|xs + ys| - 1] == xs + ys[..n];
      OutputConcat(w, xs, ys[..n]);
      Assoc(OutputOf(w, xs), OutputOf(w, ys[..n]), OutputAt(w, ys[n].index));
    }
  }

  /** The record at position `lo` of the stream: what it yields is what its acknowledgement
      stands for. */
  lemma OneOutput(w: World, life: nat, lo: nat)
    requires lo < |Stream(w)|
    ensures OutputOf(w, if Survives(w, lo) then [Ack(life, lo)] else [])
         == Survivor(w.ts, Record(Stream(w)[lo], None))
  {
    hide Stream, Survivor;
    if Survives(w, lo) {
      var one := [Ack(life, lo)];
      assert one[..0] == [];
      assert OutputOf(w, one) == [] + OutputAt(w, lo);
    }
  }

  lemma LiftRest(w: World, lo: nat, hi: nat)
    requires lo < hi <= |Stream(w)|
    ensures var rs := Lift(Stream(w)[lo..hi]);
            rs != [] && rs[0] == Record(Stream(w)[lo], None) && rs[1..] == Lift(Stream(w)[lo + 1..hi])
  {
    hide Stream;
  }

  /** What a processed batch writes is what its acknowledgements stand for. */
  lemma {:induction false} BatchOutput(w: World, life: nat, lo: nat, hi: nat)
    requires lo <= hi <= |Stream(w)|
    ensures Survivors(w.ts, Lift(Stream(w)[lo..hi])) == OutputOf(w, AcksFor(w, life, lo, hi))
    decreases hi - lo
  {
    hide Stream, Survivor, Survives, Lift;
    if lo == hi {
      assert Stream(w)[lo..hi] == [];
    } else {
      BatchOutput(w, life, lo + 1, hi);
      LiftRest(w, lo, hi);
      var first := if Survives(w, lo) then [Ack(life, lo)] else [];
      var rest := AcksFor(w, life, lo + 1, hi);
      OneOutput(w, life, lo);
      assert AcksFor(w, life, lo, hi) == first + rest;
      hide OutputOf;
      OutputConcat(w, first, rest);
    }
  }

  lemma {:induction false} ProcessOutput(w: World, a: Agent)
    requires Placed(w, a) && a.stage.Holding? && a.output == OutputOf(w, a.acks)
    requires Inodes(w.d) && OnFile(a.reader, w.d)
    ensures var a' := Next(w, a, Process); a'.output == OutputOf(w, a'.acks)
  {
    hide Stream, Chain, Survivors, Remaining, Settled, OutputOf, AcksFor, Lift;
    BatchOutput(w, a.life, a.stage.lo, a.pos);
    ChainIsPerRecord(w.ts, Lift(a.stage.batch));
    OutputConcat(w, a.acks, AcksFor(w, a.life, a.stage.lo, a.pos));
  }

  // ---------------------------------------------------------------- every step, every run

  lemma {:induction false} NextKeeps(w: World, a: Agent, s: Step)
    requires Readable(w) && Inodes(w.d) && OnFile(a.reader, w.d) && Inv(w, a)
    ensures Inv(w, Next(w, a, s))
  {
    hide Stream, Survives, Remaining, Settled, Healthy, ReadBatch, OutputOf, AcksFor, Chain, Lift;
    match s
    case Read(size, cut) =>
      if a.stage.Ready? {
        ReadPlaced(w, a, size, cut);
      }
    case Process =>
      if a.stage.Holding? {
        ProcessOrdered(w, a);
        ProcessOutput(w, a);
      }
    case Commit(written) =>
      if a.stage.Written? {
        CommitPlaced(w, a, written);
      }
    case Crash =>
  }

  lemma {:induction false} ExecKeeps(w: World, steps: seq<Step>)
    requires Readable(w) && Inodes(w.d)
    ensures Inv(w, Exec(w, steps))
    decreases |steps|
  {
    hide Inv, Readable, Inodes, Next, Boot;
    if steps == [] {
      BootInv(w);
    } else {
      ExecKeeps(w, steps[..|steps| - 1]);
      NextKeeps(w, Exec(w, steps[..|steps| - 1]), steps[|steps| - 1]);
    }
  }

  lemma BootInv(w: World)
    requires Readable(w)
    ensures Inv(w, Boot(w))
  {
    BootPlaced(w);
  }

  /** Without a state file the stream is every non-empty line of every file, oldest first. */
  lemma FreshStream(w: World)
    requires Readable(w) && w.first == Saved("", 0, map[]) && w.from == Oldest
    ensures Stream(w) == AllLines(w.d, 0, |w.d.order|)
  {
    FreshRemaining(w.d);
  }

  /** For every interleaving of reads, writes, commits that succeed or silently fail, and crashes:
      each surviving record up to the furthest position processed has been acknowledged, the
      output is the transformed records in the order of the acknowledgements, and a record
      acknowledged twice was acknowledged in different lives, the second time behind the
      position that life was restarted from. */
  lemma {:induction false} AtLeastOnceTheorem(w: World, steps: seq<Step>)
    requires Readable(w) && Inodes(w.d)
    ensures var a := Exec(w, steps);
            && Placed(w, a) && Covered(w, a)
            && a.output == OutputOf(w, a.acks)
            && |a.starts| == a.life + 1
            && (forall k :: 0 <= k < |a.acks| ==> a.acks[k].life <= a.life)
            && (forall j, k :: 0 <= j < k < |a.acks| && a.acks[j].index == a.acks[k].index ==>
                  a.acks[j].life < a.acks[k].life && a.starts[a.acks[k].life] <= a.acks[k].index)
  {
    hide Readable, Inodes, Exec, Placed, Covered, OutputOf;
    ExecKeeps(w, steps);
  }

  // ---------------------------------------------------------------- the commits of a run

  /** Step `k` is a commit, of a batch just written, whose state file replaces the old one. */
  ghost predicate Commits(w: World, steps: seq<Step>, k: nat)
    requires Inodes(w.d)
  {
    k < |steps| && steps[k].Commit? && steps[k].written && Exec(w, steps[..k]).stage.Written?
  }

  ghost predicate LastCommit(w: World, steps: seq<Step>, k: nat)
    requires Inodes(w.d)
  {
    Commits(w, steps, k) && forall j: nat :: j > k ==> !Commits(w, steps, j)
  }

  /** The last commit of the run was at stream position `p` and saved `saved`; without one, these
      are what the agent was first started with. */
  ghost predicate Committed(w: World, steps: seq<Step>, p: nat, saved: Saved)
    requires Inodes(w.d)
  {
    if exists k: nat :: Commits(w, steps, k) then
      exists k: nat :: LastCommit(w, steps, k) && p == Exec(w, steps[..k]).pos && saved == Save(Exec(w, steps[..k]).reader, w.d)
    else p == 0 && saved == w.first
  }

  lemma CommitsSnoc(w: World, steps: seq<Step>, k: nat)
    requires Inodes(w.d) && steps != []
    ensures k < |steps| - 1 ==> (Commits(w, steps, k) <==> Commits(w, steps[..|steps| - 1], k))
    ensures k < |steps| - 1 ==> steps[..|steps| - 1][..k] == steps[..k]
    ensures k >= |steps| - 1 ==> !Commits(w, steps[..|steps| - 1], k)
    ensures k >= |steps| ==> !Commits(w, steps, k)
  {
    hide Exec;
    if k < |steps| - 1 {
      assert steps[..|steps| - 1][..k] == steps[..k];
    }
  }

  lemma CommitStep(w: World, a: Agent, s: Step)
    requires Inodes(w.d) && OnFile(a.reader, w.d)
    ensures var a' := Next(w, a, s);
            if s.Commit? && s.written && a.stage.Written?
            then a'.savedPos == a.pos && a'.saved == Save(a.reader, w.d)
            else a'.savedPos == a.savedPos && a'.saved == a.saved
  {
    hide ReadBatch, Chain, AcksFor;
  }

  /** A commit forgets the inodes that are gone, whether or not the state file could be written. */
  lemma CommitForgets(w: World, a: Agent, written: bool, n: nat)
    requires Inodes(w.d) && OnFile(a.reader, w.d) && a.stage.Written?
    ensures var a' := Next(w, a, Commit(written));
            n in a'.reader.done <==> n in a.reader.done && exists p :: p in w.d.files && w.d.files[p].inode == n
  {
    PruneExact(a.reader.done, w.d, n);
  }

  lemma {:induction false} CommittedSnoc(w: World, steps: seq<Step>, p: nat, saved: Saved)
    requires Inodes(w.d) && steps != []
    ensures var n := |steps| - 1;
            Committed(w, steps, p, saved) <==>
              if Commits(w, steps, n) then p == Exec(w, steps[..n]).pos && saved == Save(Exec(w, steps[..n]).reader, w.d)
              else Committed(w, steps[..n], p, saved)
  {
    hide Exec, Commits, Save;
    var n := |steps| - 1;
    forall k: nat
      ensures k < n ==> (Commits(w, steps, k) <==> Commits(w, steps[..n], k)) && steps[..n][..k] == steps[..k]
      ensures k >= n ==> !Commits(w, steps[..n], k)
      ensures k > n ==> !Commits(w, steps, k)
    {
      CommitsSnoc(w, steps, k);
    }
    if Commits(w, steps, n) {
      assert LastCommit(w, steps, n);
      assert forall k: nat :: LastCommit(w, steps, k) ==> k == n;
    } else {
      assert forall k: nat :: LastCommit(w, steps, k) <==> LastCommit(w, steps[..n], k);
      assert forall k: nat :: LastCommit(w, steps, k) ==> k < n;
      assert (exists k: nat :: Commits(w, steps, k)) <==> (exists k: nat :: Commits(w, steps[..n], k));
    }
  }

  /** Over every run the state file holds what the last successful commit saved, at the position
      the reader then had, and nothing else ever changes it. */
  lemma {:induction false} SavedIsLastCommit(w: World, steps: seq<Step>, p: nat, saved: Saved)
    requires Inodes(w.d)
    ensures Committed(w, steps, p, saved) <==> p == Exec(w, steps).savedPos && saved == Exec(w, steps).saved
    decreases |steps|
  {
    if steps == [] {
      assert forall k: nat :: !Commits(w, steps, k);
    } else {
      var n := |steps| - 1;
      SavedIsLastCommit(w, steps[..n], p, saved);
      CommittedSnoc(w, steps, p, saved);
      CommitStep(w, Exec(w, steps[..n]), steps[n]);
      hide Next, Committed;
    }
  }

  lemma LifeStep(w: World, a: Agent, s: Step)
    requires Inodes(w.d) && OnFile(a.reader, w.d)
    ensures var a' := Next(w, a, s);
            if s.Crash? then
              && a'.life == a.life + 1 && a'.starts == a.starts + [a.savedPos]
              && a'.pos == a.savedPos && a'.reader == Load(a.saved) && a'.stage.Ready?
            else a'.life == a.life && a'.starts == a.starts
  {
    hide ReadBatch, Chain, AcksFor;
  }

  /** Every life but the first begins with a crash, at the position saved then. */
  lemma {:induction false} LifeBegins(w: World, steps: seq<Step>, l: nat)
    requires Inodes(w.d) && l <= Exec(w, steps).life
    ensures |Exec(w, steps).starts| == Exec(w, steps).life + 1
    ensures if l == 0 then Exec(w, steps).starts[0] == 0
            else exists i: nat :: i < |steps| && steps[i].Crash? && Exec(w, steps[..i]).life + 1 == l
                                  && Exec(w, steps).starts[l] == Exec(w, steps[..i]).savedPos
    decreases |steps|
  {
    hide Next;
    if steps != [] {
      var n := |steps| - 1;
      var before := steps[..n];
      LifeStep(w, Exec(w, before), steps[n]);
      if l <= Exec(w, before).life {
        LifeBegins(w, before, l);
        if l > 0 {
          var i: nat :| i < n && before[i].Crash? && Exec(w, before[..i]).life + 1 == l
                        && Exec(w, before).starts[l] == Exec(w, before[..i]).savedPos;
          assert before[..i] == steps[..i] && steps[i].Crash?;
        }
      } else {
        LifeBegins(w, before, 0);
        assert steps[n].Crash? && Exec(w, steps[..n]).life + 1 == l;
      }
    }
  }

  /** The place of repeats: a record acknowledged again in a later life was read behind the last
      position committed before that life began. */
  lemma {:induction false} RepeatsBehindCommit(w: World, steps: seq<Step>, j: nat, k: nat)
    requires Readable(w) && Inodes(w.d) && j < k < |Exec(w, steps).acks|
    requires Exec(w, steps).acks[j].index == Exec(w, steps).acks[k].index
    ensures var again := Exec(w, steps).acks[k];
            exists i: nat, p: nat, saved: Saved ::
              && i < |steps| && steps[i].Crash? && Exec(w, steps[..i]).life + 1 == again.life
              && Committed(w, steps[..i], p, saved) && p <= again.index
  {
    hide Exec, Committed, Readable, Inodes;
    AtLeastOnceTheorem(w, steps);
    var a := Exec(w, steps);
    var l := a.acks[k].life;
    LifeBegins(w, steps, l);
    var i: nat :| i < |steps| && steps[i].Crash? && Exec(w, steps[..i]).life + 1 == l
                  && a.starts[l] == Exec(w, steps[..i]).savedPos;
    var b := Exec(w, steps[..i]);
    SavedIsLastCommit(w, steps[..i], b.savedPos, b.saved);
    assert Committed(w, steps[..i], b.savedPos, b.saved);
  }

  /** A crash puts the agent back to the last commit. */
  lemma {:induction false} CrashReturns(w: World, steps: seq<Step>, p: nat, saved: Saved)
    requires Inodes(w.d) && Committed(w, steps, p, saved)
    ensures var a := Next(w, Exec(w, steps), Crash);
            a.pos == p && a.reader == Load(saved) && a.stage.Ready? && a.life == Exec(w, steps).life + 1
  {
    hide Committed, Exec, Next;
    SavedIsLastCommit(w, steps, p, saved);
    LifeStep(w, Exec(w, steps), Crash);
  }

  /** One undisturbed round: the state file moves up to what was read if and only if some record
      of the batch survives; a batch of which nothing survives is passed over without a commit. */
  lemma {:induction false} RoundCommits(w: World, a: Agent, size: nat, cut: nat -> bool)
    requires Readable(w) && Inodes(w.d) && OnFile(a.reader, w.d) && Inv(w, a) && a.stage.Ready?
    ensures var b := ReadBatch(a.reader, w.d, w.from, size, cut, 0);
            var a' := Next(w, Next(w, Next(w, a, Read(size, cut)), Process), Commit(true));
            && a'.stage.Ready? && a'.pos == a.pos + |b.out| <= |Stream(w)|
            && a'.savedPos == (if exists i: nat :: a.pos <= i < a'.pos && Survives(w, i) then a'.pos else a.savedPos)
  {
    hide Stream, Survives, Remaining, Settled, Healthy, ReadBatch, OutputOf, AcksFor, Chain, Lift, Prune, Covered, Ordered;
    var b := ReadBatch(a.reader, w.d, w.from, size, cut, 0);
    ReadPlaced(w, a, size, cut);
    if b.out != [] {
      BatchWritten(w, a.life, a.pos, a.pos + |b.out|);
    }
  }

  /** The transforms leave something of a batch if and only if some record of it survives. */
  lemma BatchWritten(w: World, life: nat, lo: nat, hi: nat)
    requires lo <= hi <= |Stream(w)|
    ensures Chain(w.ts, Lift(Stream(w)[lo..hi])) != [] <==> exists i: nat :: lo <= i < hi && Survives(w, i)
  {
    hide Stream, Survives, Chain, Lift, Survivors, AcksFor, OutputOf;
    NothingSurvives(w, life, lo, hi);
    BatchOutput(w, life, lo, hi);
    ChainIsPerRecord(w.ts, Lift(Stream(w)[lo..hi]));
    OutputNone(w, AcksFor(w, life, lo, hi));
  }

  lemma {:induction false} NothingSurvives(w: World, life: nat, lo: nat, hi: nat)
    requires lo <= hi <= |Stream(w)|
    ensures AcksFor(w, life, lo, hi) != [] <==> exists i: nat :: lo <= i < hi && Survives(w, i)
    ensures forall k :: 0 <= k < |AcksFor(w, life, lo, hi)| ==>
              lo <= AcksFor(w, life, lo, hi)[k].index < hi && Survives(w, AcksFor(w, life, lo, hi)[k].index)
    decreases hi - lo
  {
    hide Stream, Survives;
    if lo < hi {
      NothingSurvives(w, life, lo + 1, hi);
    }
  }

  /** Acknowledgements of surviving records stand for some output. */
  lemma OutputNone(w: World, acks: seq<Ack>)
    requires forall k :: 0 <= k < |acks| ==> acks[k].index < |Stream(w)| && Survives(w, acks[k].index)
    ensures OutputOf(w, acks) == [] <==> acks == []
  {
    hide Stream, Survivor;
  }
}
