/** The directory reader yields every non-empty line of every listed file, oldest file first,
    each line once, for every way of cutting the reading into batches. */
module DirStream {
  import opened Basics
  import opened Lines
  import opened DirReader
  import opened Listing

  // ---------------------------------------------------------------- what an idle batch means

  /** No listed file is left: each is done, is the current one, or cannot be opened. */
  ghost predicate NothingLeft(r: Reader, d: Dir, i: nat)
    requires i <= |d.order|
  {
    forall k :: i <= k < |d.order| ==>
      !CanOpen(d, d.order[k]) || d.files[d.order[k]].inode in r.done || d.order[k] == r.file
  }

  /** An open reader is on the inode its path names, or the rotation shows. */
  ghost predicate Known(r: Reader, d: Dir) {
    Rotated(r, d) || OnInode(r, d)
  }

  ghost predicate OnInode(r: Reader, d: Dir) {
    r.open ==> r.file != "" && r.file in d.files && d.files[r.file].inode == r.inode && 0 <= r.offset
  }

  lemma {:induction false} AdvanceFails(r: Reader, d: Dir, i: nat)
    requires i <= |d.order| && Inodes(d) && OnInode(r, d) && (r.open || r.file == "")
    requires !Advance(r, d, i).1
    ensures var r' := Advance(r, d, i).0;
            && (forall n :: n in r.done ==> n in r'.done)
            && NothingLeft(r', d, i)
            && (r'.open ==> r' == r)
            && (r.open && d.files[r.file].inode != 0 && r' != r ==> d.files[r.file].inode in r'.done)
    decreases |d.order| - i
  {
    if i < |d.order| {
      var p := d.order[i];
      if p !in d.files || d.files[p].inode in r.done || p == r.file {
        AdvanceFails(r, d, i + 1);
      } else {
        var closed := if r.open then MarkDone(r).(open := false) else r;
        var (next, ok) := OpenFile(closed.(file := p, offset := 0), d, Oldest);
        AdvanceFails(next, d, i + 1);
      }
    }
  }

  lemma IterateIdle(r: Reader, d: Dir, from: Start)
    requires Inodes(d) && Known(r, d)
    requires !Iterate(r, d, from).more
    ensures var r' := Iterate(r, d, from).r;
            NothingLeft(r', d, 0) && (r'.open ==> r'.offset == |Content(d, r'.file)|)
  {
    hide NothingLeft;
    var l := ReadLine(r, d, from);
    AdvanceFails(l.r.(offset := l.r.offset + |l.raw|), d, 0);
  }

  lemma KnownTurn(r: Reader, d: Dir, from: Start)
    requires Inodes(d) && Known(r, d) && Iterate(r, d, from).more
    ensures Known(Iterate(r, d, from).r, d)
  {
    var l := ReadLine(r, d, from);
    if l.eof {
      if l.r.open {
        AdvanceOpen(l.r, d, 0);
      } else {
        AdvanceClosed(l.r, d, 0);
      }
    }
  }

  /** From any reader state, closed, open or with its file rotated away, whatever the offset: a
      batch that was neither filled nor cut leaves an open file consumed to its end and every
      other listed file done. */
  lemma {:induction false} IdleMeansExhausted(r: Reader, d: Dir, from: Start, size: nat, cut: nat -> bool, i: nat)
    requires Inodes(d) && Known(r, d)
    requires ReadBatch(r, d, from, size, cut, i).end.Idle?
    ensures var r' := ReadBatch(r, d, from, size, cut, i).r;
            NothingLeft(r', d, 0) && (r'.open ==> r'.offset == |Content(d, r'.file)|)
    decreases NotDone(r, d), Rank(r, d), Left(r, d)
  {
    hide Iterate, NothingLeft, Content, NotDone, Rank, Left, Known;
    IterateShrinks(r, d, from);
    var t := Iterate(r, d, from);
    if t.more {
      KnownTurn(r, d, from);
      IdleMeansExhausted(t.r, d, from, size - |t.out|, cut, i + 1);
    } else {
      IterateIdle(r, d, from);
    }
  }

  // ---------------------------------------------------------------- the remaining stream

  /** A directory the reader can read: every listed path names a readable file, no path is
      listed twice, and no two files share an inode. */
  ghost predicate Healthy(d: Dir) {
    && Inodes(d)
    && "" !in d.files
    && (forall p :: p in d.order ==> CanOpen(d, p))
    && (forall i, j :: 0 <= i < j < |d.order| ==> d.order[i] != d.order[j])
    && (forall p, q :: p in d.files && q in d.files && d.files[p].inode == d.files[q].inode ==> p == q)
  }

  /** A reader whose position lies inside its file. */
  ghost predicate Settled(r: Reader, d: Dir) {
    && OnFile(r, d)
    && (r.file != "" ==> CanOpen(d, r.file) && r.offset <= |Content(d, r.file)|)
  }

  /** Listed files still to be read after the current one. */
  ghost function Unread(r: Reader, d: Dir): set<Path> {
    set p | p in d.order && p in d.files && d.files[p].inode !in r.done && p != r.file
  }

  /** The records of the listed files in `todo`, in listing order from entry `i`. */
  ghost function Pending(d: Dir, todo: set<Path>, i: nat): seq<Bytes>
    requires i <= |d.order|
    decreases |d.order| - i
  {
    if i == |d.order| then []
    else (if d.order[i] in todo then Records(Content(d, d.order[i])) else []) + Pending(d, todo, i + 1)
  }

  ghost function Tail(r: Reader, d: Dir): seq<Bytes> {
    if 0 <= r.offset <= |Content(d, r.file)| then Records(Content(d, r.file)[r.offset..]) else []
  }

  /** What a reader has still to emit. */
  ghost function Remaining(r: Reader, d: Dir, from: Start): seq<Bytes> {
    if r.file == "" && d.order == [] then []
    else
      var r' := if r.file != "" then r
                else r.(file := StartFile(d, from), offset := if from.Newest? then -1 else 0);
      Tail(r', d) + Pending(d, Unread(r', d), 0)
  }

  lemma {:induction false} PendingNone(d: Dir, todo: set<Path>, i: nat)
    requires i <= |d.order|
    requires forall k :: i <= k < |d.order| ==> d.order[k] !in todo
    ensures Pending(d, todo, i) == []
    decreases |d.order| - i
  {
    if i < |d.order| {
      PendingNone(d, todo, i + 1);
    }
  }

  lemma {:induction false} PendingSame(d: Dir, a: set<Path>, b: set<Path>, i: nat)
    requires i <= |d.order|
    requires forall k :: i <= k < |d.order| ==> (d.order[k] in a <==> d.order[k] in b)
    ensures Pending(d, a, i) == Pending(d, b, i)
    decreases |d.order| - i
  {
    if i < |d.order| {
      PendingSame(d, a, b, i + 1);
    }
  }

  lemma OrderDistinct(d: Dir, k: nat)
    requires Healthy(d) && k < |d.order|
    ensures forall j :: 0 <= j < |d.order| && j != k ==> d.order[j] != d.order[k]
  {
  }

  /** Taking the first file of `todo` out of it. */
  lemma {:induction false} PendingPick(d: Dir, todo: set<Path>, i: nat, k: nat)
    requires Healthy(d) && i <= k < |d.order| && d.order[k] in todo
    requires forall j :: i <= j < k ==> d.order[j] !in todo
    ensures Pending(d, todo, i) == Records(Content(d, d.order[k])) + Pending(d, todo - {d.order[k]}, i)
    decreases k - i
  {
    hide Healthy, Records, Content;
    OrderDistinct(d, k);
    var rest := todo - {d.order[k]};
    if i == k {
      PendingSame(d, todo, rest, i + 1);
      assert Pending(d, rest, i) == [] + Pending(d, rest, i + 1);
    } else {
      PendingPick(d, todo, i + 1, k);
      assert Pending(d, rest, i) == [] + Pending(d, rest, i + 1);
      assert Pending(d, todo, i) == [] + Pending(d, todo, i + 1);
    }
  }

  /** Between `r` and `r'` the reader emitted `out` and lost or repeated nothing. */
  ghost predicate Kept(r: Reader, r': Reader, d: Dir, from: Start, out: seq<Bytes>) {
    Settled(r', d) && Remaining(r, d, from) == out + Remaining(r', d, from)
  }

  lemma KeptTwice(r0: Reader, r1: Reader, r2: Reader, d: Dir, from: Start, a: seq<Bytes>, b: seq<Bytes>)
    requires Kept(r0, r1, d, from, a) && Kept(r1, r2, d, from, b)
    ensures Kept(r0, r2, d, from, a + b)
  {
    hide Settled, Remaining;
    Assoc(a, b, Remaining(r2, d, from));
  }

  lemma KeptSettled(r: Reader, r': Reader, d: Dir, from: Start, out: seq<Bytes>)
    requires Kept(r, r', d, from, out)
    ensures Settled(r', d)
  {
  }

  lemma ReadyToRead(r: Reader, d: Dir)
    requires Healthy(d) && Settled(r, d)
    ensures Inodes(d) && OnFile(r, d)
  {
  }

  lemma KeptNone(r: Reader, d: Dir, from: Start)
    requires Settled(r, d)
    ensures Kept(r, r, d, from, [])
  {
    hide Remaining;
  }

  // ---------------------------------------------------------------- one turn

  /** Advancing from the end of an open file moves to the first unread file, or finds none. */
  lemma {:induction false} AdvanceKeeps(r: Reader, d: Dir, i: nat)
    requires Healthy(d) && Settled(r, d) && r.open && i <= |d.order|
    requires r.offset == |Content(d, r.file)|
    requires forall j :: 0 <= j < i ==> d.order[j] !in Unread(r, d)
    ensures var (r', ok) := Advance(r, d, i);
            && Settled(r', d) && r'.open
            && Pending(d, Unread(r, d), 0) == (if ok then Tail(r', d) else []) + Pending(d, Unread(r', d), 0)
            && (!ok ==> r' == r && Pending(d, Unread(r, d), 0) == [])
    decreases |d.order| - i
  {
    if i == |d.order| {
      PendingNone(d, Unread(r, d), 0);
    } else {
      var p := d.order[i];
      if p !in d.files || d.files[p].inode in r.done || p == r.file {
        AdvanceKeeps(r, d, i + 1);
      } else {
        var r' := Advance(r, d, i).0;
        assert r'.file == p && r'.offset == 0;
        TailAtStart(r', d);
        PendingPick(d, Unread(r, d), 0, i);
        UnreadAfterMark(r, r', d);
      }
    }
  }

  lemma UnreadAfterMark(r: Reader, r': Reader, d: Dir)
    requires Healthy(d) && Settled(r, d) && r.open
    requires r'.file in Unread(r, d) && r'.done == MarkDone(r).done
    ensures Unread(r', d) == Unread(r, d) - {r'.file}
  {
    forall p | p in Unread(r, d) - {r'.file} ensures p in Unread(r', d) {
      assert d.files[p].inode != r.inode;
    }
    forall p | p in Unread(r', d) ensures p in Unread(r, d) {
      assert r.file in d.order ==> d.files[r.file].inode in r'.done;
    }
  }

  /** Opening a settled reader's file changes nothing about what is left. */
  lemma OpenKeeps(r: Reader, d: Dir, from: Start)
    requires Healthy(d) && Settled(r, d) && !r.open && !(r.file == "" && d.order == [])
    ensures var (r', ok) := OpenFile(r, d, from);
            && ok && r'.open && Settled(r', d)
            && Remaining(r', d, from) == Remaining(r, d, from)
  {
    var (r', ok) := OpenFile(r, d, from);
    var s := if r.file != "" then r
             else r.(file := StartFile(d, from), offset := if from.Newest? then -1 else 0);
    assert d.order != [] ==> StartFile(d, from) in d.order;
    assert Unread(r', d) == Unread(s, d);
    if s.offset < 0 {
      assert Content(d, r'.file)[r'.offset..] == [];
    }
  }

  /** Reading a chunk takes its record off the front of the remaining stream. */
  lemma ChunkKeeps(r: Reader, d: Dir)
    requires Settled(r, d) && r.open && NextChunk(r, d) != []
    ensures var r' := r.(offset := r.offset + |NextChunk(r, d)|);
            Settled(r', d) && Tail(r, d) == Emit(Strip(NextChunk(r, d))) + Tail(r', d)
  {
    hide Records, Strip, Emit, ChunkLen;
    var s := Content(d, r.file)[r.offset..];
    RecordsUnfold(s);
    assert s[ChunkLen(s)..] == Content(d, r.file)[r.offset + ChunkLen(s)..];
  }

  lemma IterateOpenKeeps(r: Reader, d: Dir, from: Start)
    requires Healthy(d) && Settled(r, d) && r.open
    ensures var t := Iterate(r, d, from);
            && Kept(r, t.r, d, from, t.out)
            && (!t.more ==> Remaining(t.r, d, from) == [])
  {
    hide Healthy, Records, Pending, Emit, Strip, Advance;
    var t := Iterate(r, d, from);
    if NextChunk(r, d) != [] {
      ChunkKeeps(r, d);
      assert Unread(t.r, d) == Unread(r, d);
      Assoc(t.out, Tail(t.r, d), Pending(d, Unread(r, d), 0));
    } else {
      RecordsOfNothing(r, d);
      AdvanceKeeps(r, d, 0);
    }
  }

  lemma RecordsOfNothing(r: Reader, d: Dir)
    requires Settled(r, d) && r.open && NextChunk(r, d) == []
    ensures Tail(r, d) == [] && r.offset == |Content(d, r.file)|
  {
    assert Content(d, r.file)[r.offset..] == [];
  }

  lemma IterateNothing(r: Reader, d: Dir, from: Start)
    requires Settled(r, d) && !r.open && r.file == "" && d.order == []
    ensures var t := Iterate(r, d, from);
            Kept(r, t.r, d, from, t.out) && Remaining(t.r, d, from) == []
  {
  }

  lemma IterateOpens(r: Reader, d: Dir, from: Start)
    requires !r.open && OpenFile(r, d, from).1 && OpenFile(r, d, from).0.open
    ensures Iterate(r, d, from) == Iterate(OpenFile(r, d, from).0, d, from)
  {
    hide OpenFile, Advance, Emit, Strip;
  }

  /** The invariant of the reading loop: what a turn emits, followed by what is left after it,
      is what was left before it. */
  lemma {:induction false} IterateKeeps(r: Reader, d: Dir, from: Start)
    requires Healthy(d) && Settled(r, d)
    ensures var t := Iterate(r, d, from);
            && Kept(r, t.r, d, from, t.out)
            && (!t.more ==> Remaining(t.r, d, from) == [])
  {
    hide Iterate, Healthy, Settled, Remaining, OpenFile;
    if r.open {
      IterateOpenKeeps(r, d, from);
    } else if r.file == "" && d.order == [] {
      IterateNothing(r, d, from);
    } else {
      OpenKeeps(r, d, from);
      IterateOpens(r, d, from);
      IterateOpenKeeps(OpenFile(r, d, from).0, d, from);
    }
  }

  // ---------------------------------------------------------------- batches

  lemma {:induction false} BatchKeeps(r: Reader, d: Dir, from: Start, size: nat, cut: nat -> bool, i: nat)
    requires Healthy(d) && Settled(r, d)
    ensures var b := ReadBatch(r, d, from, size, cut, i);
            && Kept(r, b.r, d, from, b.out)
            && (b.end.Idle? ==> Remaining(b.r, d, from) == [])
    decreases NotDone(r, d), Rank(r, d), Left(r, d)
  {
    hide Iterate, Healthy, Kept, Remaining, NotDone, Rank, Left, Settled, Inodes, OnFile;
    ReadyToRead(r, d);
    KeptNone(r, d, from);
    if size > 0 && !cut(i) {
      IterateShrinks(r, d, from);
      IterateKeeps(r, d, from);
      var t := Iterate(r, d, from);
      if t.more {
        assert Settled(t.r, d) by { KeptSettled(r, t.r, d, from, t.out); }
        BatchKeeps(t.r, d, from, size - |t.out|, cut, i + 1);
        var b := ReadBatch(t.r, d, from, size - |t.out|, cut, i + 1);
        KeptTwice(r, t.r, b.r, d, from, t.out, b.out);
      }
    }
  }

  /** One call of `ReadBatch` by the runner: its size and where the deadline falls. */
  datatype Call = Call(size: nat, cut: nat -> bool)

  /** All records of a sequence of calls, and the reader afterwards. */
  ghost function ReadAll(r: Reader, d: Dir, from: Start, calls: seq<Call>): (res: (Reader, seq<Bytes>))
    requires Inodes(d)
    ensures OnFile(r, d) ==> OnFile(res.0, d)
    decreases |calls|
  {
    if calls == [] then (r, [])
    else
      var b := ReadBatch(r, d, from, calls[0].size, calls[0].cut, 0);
      var (r', rest) := ReadAll(b.r, d, from, calls[1..]);
      (r', b.out + rest)
  }

  /** The reference: the non-empty lines of the listed files `i` to `n`, in listing order. */
  ghost function AllLines(d: Dir, i: nat, n: nat): seq<Bytes>
    requires i <= n <= |d.order|
    decreases n - i
  {
    if i == n then [] else NonEmptyLines(Content(d, d.order[i])) + AllLines(d, i + 1, n)
  }

  lemma {:induction false} PendingIsAllLines(d: Dir, todo: set<Path>, i: nat, n: nat)
    requires i <= n <= |d.order|
    requires forall k :: i <= k < |d.order| ==> (d.order[k] in todo <==> k < n)
    ensures Pending(d, todo, i) == AllLines(d, i, n)
    decreases n - i
  {
    hide Records, NonEmptyLines, Content;
    if i < n {
      RecordsAreLines(Content(d, d.order[i]));
      PendingIsAllLines(d, todo, i + 1, n);
    } else {
      PendingNone(d, todo, i);
    }
  }

  lemma FreshUnread(d: Dir)
    requires Healthy(d) && d.order != []
    ensures var todo := Unread(FRESH.(file := d.order[0]), d);
            d.order[0] !in todo && forall k :: 1 <= k < |d.order| ==> d.order[k] in todo
  {
    OrderDistinct(d, 0);
    forall k | 1 <= k < |d.order| ensures d.order[k] in Unread(FRESH.(file := d.order[0]), d) {
      assert d.order[k] in d.order;
    }
  }

  lemma TailAtStart(r: Reader, d: Dir)
    requires r.offset == 0
    ensures Tail(r, d) == Records(Content(d, r.file))
  {
    assert Content(d, r.file)[0..] == Content(d, r.file);
  }

  lemma FreshRemaining(d: Dir)
    requires Healthy(d)
    ensures Settled(FRESH, d) && Remaining(FRESH, d, Oldest) == AllLines(d, 0, |d.order|)
  {
    hide Healthy, Records, Unread, NonEmptyLines, Tail, Content;
    if d.order != [] {
      FreshUnread(d);
      var r := FRESH.(file := d.order[0]);
      var todo := Unread(r, d);
      TailAtStart(r, d);
      RecordsAreLines(Content(d, r.file));
      PendingIsAllLines(d, todo, 1, |d.order|);
      assert Pending(d, todo, 0) == [] + Pending(d, todo, 1);
    }
  }

  lemma {:induction false} ReadAllKeeps(r: Reader, d: Dir, from: Start, calls: seq<Call>)
    requires Healthy(d) && Settled(r, d)
    ensures var (r', out) := ReadAll(r, d, from, calls);
            Kept(r, r', d, from, out)
    decreases |calls|
  {
    if calls != [] {
      BatchKeeps(r, d, from, calls[0].size, calls[0].cut, 0);
      var b := ReadBatch(r, d, from, calls[0].size, calls[0].cut, 0);
      ReadAllKeeps(b.r, d, from, calls[1..]);
      var (r', rest) := ReadAll(b.r, d, from, calls[1..]);
      KeptTwice(r, b.r, r', d, from, b.out, rest);
    }
  }

  /** For every sequence of batch sizes and deadlines, a fresh reader has read a prefix of all
      lines; and once a further batch is neither filled nor cut, exactly all lines. */
  lemma {:induction false} StreamTheorem(d: Dir, calls: seq<Call>, last: Call)
    requires Healthy(d)
    ensures var (r, out) := ReadAll(FRESH, d, Oldest, calls);
            && out <= AllLines(d, 0, |d.order|)
            && (ReadBatch(r, d, Oldest, last.size, last.cut, 0).end.Idle? ==>
                  out + ReadBatch(r, d, Oldest, last.size, last.cut, 0).out == AllLines(d, 0, |d.order|))
  {
    assert Inodes(d);
    hide Healthy, Settled, Remaining, AllLines, ReadBatch, ReadAll, Inodes;
    FreshRemaining(d);
    ReadAllKeeps(FRESH, d, Oldest, calls);
    var (r, out) := ReadAll(FRESH, d, Oldest, calls);
    BatchKeeps(r, d, Oldest, last.size, last.cut, 0);
    var b := ReadBatch(r, d, Oldest, last.size, last.cut, 0);
    Assoc(out, b.out, Remaining(b.r, d, Oldest));
  }

  /** A reader told to start at the newest file skips what that file held, and then reads all
      older files from their beginning. */
  lemma {:induction false} NewestTheorem(d: Dir, calls: seq<Call>, last: Call)
    requires Healthy(d) && d.order != []
    ensures var (r, out) := ReadAll(FRESH, d, Newest, calls);
            && out <= AllLines(d, 0, |d.order| - 1)
            && (ReadBatch(r, d, Newest, last.size, last.cut, 0).end.Idle? ==>
                  out + ReadBatch(r, d, Newest, last.size, last.cut, 0).out == AllLines(d, 0, |d.order| - 1))
  {
    NewestRemaining(d);
    assert Inodes(d);
    hide Healthy, Settled, Remaining, AllLines, ReadBatch, ReadAll, Inodes;
    ReadAllKeeps(FRESH, d, Newest, calls);
    var (r, out) := ReadAll(FRESH, d, Newest, calls);
    BatchKeeps(r, d, Newest, last.size, last.cut, 0);
    var b := ReadBatch(r, d, Newest, last.size, last.cut, 0);
    Assoc(out, b.out, Remaining(b.r, d, Newest));
  }

  lemma NewestRemaining(d: Dir)
    requires Healthy(d) && d.order != []
    ensures Settled(FRESH, d) && Remaining(FRESH, d, Newest) == AllLines(d, 0, |d.order| - 1)
  {
    var n := |d.order| - 1;
    var todo := Unread(FRESH.(file := d.order[n], offset := -1), d);
    OrderDistinct(d, n);
    forall k | 0 <= k < |d.order| ensures d.order[k] in todo <==> k < n {
      assert d.order[k] in d.order;
    }
    hide Healthy, Unread;
    PendingIsAllLines(d, todo, 0, n);
  }

  // ---------------------------------------------------------------- oldest file first

  /** The files of `paths` as the directory listing sees them, no two of the same age. */
  ghost predicate Dated(d: Dir, paths: set<Path>, mtime: map<Path, int>) {
    && (forall p :: p in paths ==> p in d.files && p in mtime && mtime[p] == d.files[p].mtime)
    && (forall p, q :: p in paths && q in paths && mtime[p] == mtime[q] ==> p == q)
  }

  ghost predicate IsOldest(p: Path, d: Dir, paths: set<Path>) {
    p in paths && p in d.files && forall q :: q in paths && q in d.files ==> d.files[p].mtime <= d.files[q].mtime
  }

  lemma {:induction false} OldestExists(d: Dir, paths: set<Path>)
    requires paths != {} && paths <= d.files.Keys
    ensures exists p :: IsOldest(p, d, paths)
    decreases paths
  {
    var p :| p in paths;
    if paths == {p} {
      assert IsOldest(p, d, paths);
    } else {
      OldestExists(d, paths - {p});
      var q :| IsOldest(q, d, paths - {p});
      assert IsOldest(if d.files[p].mtime <= d.files[q].mtime then p else q, d, paths);
    }
  }

  /** The reference, without any listing: the non-empty lines of the oldest file, then those of
      the oldest of the others, and so on. */
  ghost function LinesByTime(d: Dir, paths: set<Path>): seq<Bytes>
    requires paths <= d.files.Keys
    decreases paths
  {
    if paths == {} then []
    else
      OldestExists(d, paths);
      var p :| IsOldest(p, d, paths);
      NonEmptyLines(Content(d, p)) + LinesByTime(d, paths - {p})
  }

  lemma {:induction false} FirstIsOldest(d: Dir, order: seq<Path>, paths: set<Path>, mtime: map<Path, int>)
    requires IsListing(order, paths, mtime) && Dated(d, paths, mtime) && order != []
    ensures order[0] in paths && forall p :: IsOldest(p, d, paths) ==> p == order[0]
  {
    assert order[0] in order;
    forall p | IsOldest(p, d, paths) ensures p == order[0] {
      assert p in order;
      var k :| 0 <= k < |order| && order[k] == p;
      assert mtime[order[0]] <= mtime[order[k]];
    }
  }

  lemma {:induction false} LinesOfListing(d: Dir, i: nat, paths: set<Path>, mtime: map<Path, int>)
    requires i <= |d.order| && IsListing(d.order[i..], paths, mtime) && Dated(d, paths, mtime)
    ensures paths <= d.files.Keys && AllLines(d, i, |d.order|) == LinesByTime(d, paths)
    decreases |d.order| - i
  {
    var rest := d.order[i..];
    if rest == [] {
      assert forall p :: p in paths ==> p in rest;
    } else {
      FirstIsOldest(d, rest, paths, mtime);
      Rest(rest, paths, mtime);
      assert rest[1..] == d.order[i + 1..] && rest[0] == d.order[i];
      LinesOfListing(d, i + 1, paths - {rest[0]}, mtime);
      hide NonEmptyLines, Content, IsListing, Dated;
      OldestExists(d, paths);
    }
  }

  /** Whatever the sort: when the files listed are those of `paths`, by modification time and no
      two of the same age, a fresh reader yields the lines of the oldest file first, then of the
      next, each once. */
  lemma {:induction false} StreamByTime(d: Dir, paths: set<Path>, mtime: map<Path, int>, calls: seq<Call>, last: Call)
    requires Healthy(d) && IsListing(d.order, paths, mtime) && Dated(d, paths, mtime)
    ensures var (r, out) := ReadAll(FRESH, d, Oldest, calls);
            && paths <= d.files.Keys && out <= LinesByTime(d, paths)
            && (ReadBatch(r, d, Oldest, last.size, last.cut, 0).end.Idle? ==>
                  out + ReadBatch(r, d, Oldest, last.size, last.cut, 0).out == LinesByTime(d, paths))
  {
    assert d.order[0..] == d.order;
    LinesOfListing(d, 0, paths, mtime);
    hide Healthy, IsListing, Dated, LinesByTime, AllLines, ReadBatch, ReadAll;
    StreamTheorem(d, calls, last);
  }
}
