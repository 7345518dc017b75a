/** The file a reader has open is renamed, replaced or truncated, while the agent runs or while
    it is down: what is still read, what is lost and what is read again. */
module DirRotation {
  import opened Basics
  import opened Lines
  import opened DirReader
  import opened DirStream
  import opened DirRestart
  import opened DirGrowth

  // ---------------------------------------------------------------- the turn that notices

  /** The listed files that a rotated reader will still read: not done, and not the old file
      under whatever name it has now. */
  ghost function AfterRotation(r: Reader, d: Dir): set<Path> {
    set p | p in d.order && p in d.files && d.files[p].inode !in r.done && d.files[p].inode != r.inode
  }

  /** What a closed reader without a current file reads although every listed file is done. */
  ghost function Again(d: Dir, from: Start): seq<Bytes> {
    if d.order == [] || from.Newest? then [] else NonEmptyLines(Content(d, d.order[0]))
  }

  /** Advancing a reader that has no file moves to the first file not done. */
  lemma {:induction false} AdvanceFromNone(r: Reader, d: Dir, i: nat)
    requires Healthy(d) && !r.open && r.file == "" && i <= |d.order|
    requires forall j :: 0 <= j < i ==> d.order[j] !in Unread(r, d)
    requires Unread(r, d) != {}
    ensures var (r', ok) := Advance(r, d, i);
            && ok && r'.open && Settled(r', d)
            && r'.file in Unread(r, d) && r'.done == r.done
            && Pending(d, Unread(r, d), 0) == Tail(r', d) + Pending(d, Unread(r', d), 0)
    decreases |d.order| - i
  {
    var u :| u in Unread(r, d);
    var k :| 0 <= k < |d.order| && d.order[k] == u;
    assert i <= k;
    var p := d.order[i];
    assert CanOpen(d, p);
    if d.files[p].inode in r.done {
      AdvanceFromNone(r, d, i + 1);
    } else {
      var r' := Advance(r, d, i).0;
      TailAtStart(r', d);
      PendingPick(d, Unread(r, d), 0, i);
      assert Unread(r', d) == Unread(r, d) - {p};
    }
  }

  lemma {:induction false} AdvanceNowhere(r: Reader, d: Dir, i: nat)
    requires Healthy(d) && !r.open && r.file == "" && i <= |d.order|
    requires Unread(r, d) == {}
    ensures Advance(r, d, i) == (r, false)
    decreases |d.order| - i
  {
    if i < |d.order| {
      assert d.order[i] !in Unread(r, d);
      AdvanceNowhere(r, d, i + 1);
    }
  }

  /** A closed reader without a current file starts over at the oldest file even if that file, and
      every other, is marked done: its lines are due again, so nothing is repeated if and only if
      the oldest file has no non-empty line. */
  lemma {:induction false} StartsOver(r: Reader, d: Dir, from: Start)
    requires Healthy(d) && !r.open && r.file == "" && Unread(r, d) == {}
    ensures Settled(r, d) && Remaining(r, d, from) == Again(d, from)
  {
    if d.order != [] {
      var f := StartFile(d, from);
      var s := r.(file := f, offset := if from.Newest? then -1 else 0);
      assert forall p :: p in Unread(s, d) ==> p in Unread(r, d);
      assert Unread(s, d) == {};
      hide Healthy, Records, NonEmptyLines, Unread, Content;
      PendingNone(d, {}, 0);
      if from.Oldest? {
        TailAtStart(s, d);
        RecordsAreLines(Content(d, f));
      }
    }
  }

  /** The turn that notices a rotation of any kind, path gone, other inode or shorter file: the
      reader goes on with every file but the old one, and if there is none it is left without a
      current file and starts over. */
  lemma {:induction false} RotationTurn(r: Reader, d: Dir, from: Start)
    requires Healthy(d) && r.inode != 0 && Rotated(r, d)
    ensures var t, rest := Iterate(r, d, from), AfterRotation(r, d);
            && t.out == [] && (t.more <==> rest != {}) && Settled(t.r, d) && t.r.done == MarkDone(r).done
            && (if rest != {} then t.r.open && t.r.file in rest else !t.r.open && t.r.file == "")
            && Remaining(t.r, d, from) == if rest != {} then Pending(d, rest, 0) else Again(d, from)
  {
    var r1 := ReadLine(r, d, from).r;
    assert r1 == MarkDone(r).(open := false, file := "", offset := 0);
    assert Unread(r1, d) == AfterRotation(r, d);
    hide Healthy, Pending, Tail, Unread, Rotated, Again;
    if AfterRotation(r, d) != {} {
      AdvanceFromNone(r1, d, 0);
    } else {
      AdvanceNowhere(r1, d, 0);
      StartsOver(r1, d, from);
    }
  }

  // ---------------------------------------------------------------- nothing lost, nothing repeated

  /** Reading `s` up to `at` yields nothing, and reading on from there cuts no line. */
  ghost predicate NothingBefore(s: Bytes, at: int) {
    0 <= at <= |s| && NonEmptyLines(s[..at]) == []
    && (at == |s| || WholeLines(s[..at]) || Blank(s[at..][..ChunkLen(s[at..])]))
  }

  lemma {:induction false} SuffixExact(s: Bytes, at: nat)
    requires at <= |s|
    ensures NonEmptyLines(s) == NonEmptyLines(s[at..]) <==> NothingBefore(s, at)
  {
    hide NonEmptyLines, Records, Blank, WholeLines, Strip, Emit;
    var a, b := s[..at], s[at..];
    assert s == a + b;
    RecordsAreLines(s);
    RecordsAreLines(a);
    RecordsAreLines(b);
    if b == [] {
      assert a == s;
      NoRecords();
    } else {
      SuffixChunk(a, b);
    }
  }

  lemma SuffixChunk(a: Bytes, b: Bytes)
    requires b != []
    ensures Records(a + b) == Records(b) <==>
            Records(a) == [] && (WholeLines(a) || Blank(b[..ChunkLen(b)]))
  {
    hide Records, Blank, WholeLines, Strip, Emit, ChunkLen, LFOnlyAtEnd;
    FirstChunk(a, b);
    var n := ChunkLen(b);
    var c, rest := b[..n], b[n..];
    PieceExact(a, c, []);
    Cancel(Records(a + c), Emit(Strip(c)), Records(rest));
    assert [] + Emit(Strip(c)) == Emit(Strip(c));
  }

  /** Records of a stream, cut behind the first chunk of `b`. */
  lemma FirstChunk(a: Bytes, b: Bytes)
    requires b != []
    ensures var n := ChunkLen(b);
            && LFOnlyAtEnd(b[..n])
            && Records(b) == Emit(Strip(b[..n])) + Records(b[n..])
            && Records(a + b) == Records(a + b[..n]) + Records(b[n..])
  {
    var n := ChunkLen(b);
    var c, rest := b[..n], b[n..];
    assert LFOnlyAtEnd(c);
    assert n < |b| ==> WholeLines(a + c);
    hide Records, WholeLines, Strip, Emit, ChunkLen, LFOnlyAtEnd;
    RecordsUnfold(b);
    assert b == c + rest;
    Assoc(a, c, rest);
    if n < |b| {
      RecordsSplit(a + c, rest);
    } else {
      NoRecords();
      assert a + b == a + c;
      assert Records(a + c) + [] == Records(a + c);
    }
  }

  /** The unread bytes `left` of the old file are those behind the reader's position, where the
      old file is still the oldest one in the directory. */
  ghost predicate IsLeft(left: Bytes, r: Reader, d: Dir) {
    d.order != [] && d.order[0] in d.files && d.files[d.order[0]].inode == r.inode ==>
      0 <= r.offset <= |Content(d, d.order[0])| && left == Content(d, d.order[0])[r.offset..]
  }

  /** When a rotation does no harm: if there is a file to go on with, or no file to start over
      at, the old file must have been read to its end; if the reader starts over at the old file,
      nothing of it may have been emitted; if it starts over at another file, that one must hold
      just the lines that were left. */
  ghost predicate Harmless(left: Bytes, r: Reader, d: Dir, from: Start) {
    if AfterRotation(r, d) != {} || d.order == [] || from.Newest? then NonEmptyLines(left) == []
    else if d.order[0] in d.files && d.files[d.order[0]].inode == r.inode then
      NothingBefore(Content(d, d.order[0]), r.offset)
    else NonEmptyLines(Content(d, d.order[0])) == NonEmptyLines(left)
  }

  /** After a rename or a removal, seen before or after a new file has taken the name: nothing is
      lost and nothing is read again if and only if the rotation is harmless. */
  lemma {:induction false} RotationExact(r: Reader, d: Dir, from: Start, left: Bytes)
    requires Healthy(d) && r.inode != 0 && Rotated(r, d) && IsLeft(left, r, d)
    ensures Remaining(Iterate(r, d, from).r, d, from) == NonEmptyLines(left) + Pending(d, AfterRotation(r, d), 0)
            <==> Harmless(left, r, d, from)
  {
    RotationTurn(r, d, from);
    var tail, rest := NonEmptyLines(left), Pending(d, AfterRotation(r, d), 0);
    if AfterRotation(r, d) == {} {
      PendingNone(d, {}, 0);
      assert tail + [] == tail;
      if d.order != [] && d.order[0] in d.files && d.files[d.order[0]].inode == r.inode {
        SuffixExact(Content(d, d.order[0]), r.offset);
      }
    } else {
      hide NonEmptyLines, Pending, Remaining, Iterate;
      Cancel(tail, [], rest);
      assert [] + rest == rest;
    }
  }

  // ---------------------------------------------------------------- a run that reads a line twice

  /** A directory of one file that holds the line `x`. */
  function OneFile(p: Path, x: Bytes): Dir {
    Dir(map[p := File(1, 0, x + [LF], true)], [p])
  }

  lemma OneFileHealthy(p: Path, x: Bytes)
    requires p != ""
    ensures Healthy(OneFile(p, x))
  {
  }

  lemma FirstTurn(r: Reader, p: Path, x: Bytes)
    requires !r.open && r.file == "" && Clean(x)
    ensures Iterate(r, OneFile(p, x), Oldest) == Turn(Reader(true, p, 1, |x| + 1, r.done), [x], true)
  {
    var c := x + [LF];
    CleanChunk(x);
    hide ChunkLen, Strip;
    assert c[0..] == c && c[..|c|] == c;
  }

  lemma LastTurn(r: Reader, p: Path, x: Bytes)
    requires r.open && r.file == p && p != "" && r.inode == 1 && r.offset == |x| + 1
    ensures Iterate(r, OneFile(p, x), Oldest) == Turn(r, [], false)
  {
    var d := OneFile(p, x);
    assert NextChunk(r, d) == [];
    assert Advance(r, d, 1) == (r, false);
  }

  lemma OneFileBatch(r: Reader, p: Path, x: Bytes, size: nat, cut: nat -> bool)
    requires !r.open && r.file == "" && p != "" && Clean(x) && size >= 2 && forall i :: !cut(i)
    ensures Inodes(OneFile(p, x))
    ensures ReadBatch(r, OneFile(p, x), Oldest, size, cut, 0) == Batch(Reader(true, p, 1, |x| + 1, r.done), [x], Idle)
  {
    OneFileHealthy(p, x);
    var d, r1 := OneFile(p, x), Reader(true, p, 1, |x| + 1, r.done);
    FirstTurn(r, p, x);
    LastTurn(r1, p, x);
    hide Iterate, ReadBatch, OneFile;
    BatchTurn(r, d, Oldest, size, cut, 0);
    BatchTurn(r1, d, Oldest, size - 1, cut, 1);
    assert [x] + [] == [x];
  }

  /** A fresh reader reads a file to its end, the file is renamed, and before a new one exists
      the reader notices: it is left without a current file, with the inode marked done, and the
      next batch brings the same line again. */
  lemma {:induction false} ReadTwice(x: Bytes, size: nat, cut: nat -> bool)
    requires Clean(x) && size >= 2 && forall i :: !cut(i)
    ensures var d, e := OneFile("a", x), OneFile("b", x);
            && Healthy(d) && Healthy(e) && e.files["b"] == d.files["a"]
            && var first := ReadBatch(FRESH, d, Oldest, size, cut, 0);
               var second := ReadBatch(first.r, e, Oldest, size, cut, 0);
            && first.out == [x] && first.end.Idle? && second.out == [] && second.end.Idle?
            && !second.r.open && second.r.file == "" && Unread(second.r, e) == {}
            && ReadBatch(second.r, e, Oldest, size, cut, 0).out == [x]
  {
    var d, e := OneFile("a", x), OneFile("b", x);
    OneFileHealthy("a", x);
    OneFileHealthy("b", x);
    OneFileBatch(FRESH, "a", x, size, cut);
    var r1 := Reader(true, "a", 1, |x| + 1, map[]);
    assert Rotated(r1, e) && AfterRotation(r1, e) == {};
    RotationTurn(r1, e, Oldest);
    var r2 := Iterate(r1, e, Oldest).r;
    assert Unread(r2, e) == {};
    hide Iterate, ReadBatch, OneFile, Clean;
    BatchTurn(r1, e, Oldest, size, cut, 0);
    OneFileBatch(r2, "b", x, size, cut);
  }

  // ---------------------------------------------------------------- which file is read from its start

  /** The reader after `n` turns, in whatever batches. */
  ghost function Turns(r: Reader, d: Dir, from: Start, n: nat): Reader
    decreases n
  {
    if n == 0 then r else Turns(Iterate(r, d, from).r, d, from, n - 1)
  }

  lemma {:induction false} BatchIsTurns(r: Reader, d: Dir, from: Start, size: nat, cut: nat -> bool, i: nat)
    requires Inodes(d)
    ensures exists n: nat :: ReadBatch(r, d, from, size, cut, i).r == Turns(r, d, from, n)
    decreases NotDone(r, d), Rank(r, d), Left(r, d)
  {
    hide Iterate, Inodes, NotDone, Rank, Left;
    if size == 0 || cut(i) {
      assert Turns(r, d, from, 0) == r;
    } else {
      IterateShrinks(r, d, from);
      var t := Iterate(r, d, from);
      if t.more {
        BatchIsTurns(t.r, d, from, size - |t.out|, cut, i + 1);
        var n: nat :| ReadBatch(t.r, d, from, size - |t.out|, cut, i + 1).r == Turns(t.r, d, from, n);
        assert Turns(r, d, from, n + 1) == Turns(t.r, d, from, n);
      } else {
        assert Turns(r, d, from, 1) == Turns(t.r, d, from, 0);
      }
    }
  }

  /** The next turn reads `p` at its first byte. */
  ghost predicate AtFirstByte(r: Reader, d: Dir, from: Start, p: Path) {
    var (o, ok) := if r.open then (r, true) else OpenFile(r, d, from);
    ok && o.file == p && o.offset == 0
  }

  /** Some later turn reads `p` at its first byte. */
  ghost predicate ReadFromStart(r: Reader, d: Dir, from: Start, p: Path) {
    exists n: nat :: AtFirstByte(Turns(r, d, from, n), d, from, p)
  }

  lemma NowOrLater(r: Reader, d: Dir, from: Start, p: Path)
    ensures ReadFromStart(r, d, from, p) <==>
            AtFirstByte(r, d, from, p) || ReadFromStart(Iterate(r, d, from).r, d, from, p)
  {
    hide AtFirstByte, Iterate;
    assert Turns(r, d, from, 0) == r;
    var r1 := Iterate(r, d, from).r;
    assert forall n: nat :: Turns(r, d, from, n + 1) == Turns(r1, d, from, n);
    if n: nat :| AtFirstByte(Turns(r, d, from, n), d, from, p) {
      if n > 0 {
        assert AtFirstByte(Turns(r1, d, from, n - 1), d, from, p);
      }
    }
    if n: nat :| AtFirstByte(Turns(r1, d, from, n), d, from, p) {
      assert AtFirstByte(Turns(r, d, from, n + 1), d, from, p);
    }
  }

  /** An open reader that has passed `p` by: it is behind the first byte of `p`, or on another
      file with `p` marked done. */
  ghost predicate Past(r: Reader, d: Dir, p: Path) {
    && p in d.order && p in d.files && r.open && Settled(r, d)
    && (if r.file == p then r.offset > 0 else d.files[p].inode in r.done)
  }

  lemma {:induction false} AdvancePast(r: Reader, d: Dir, p: Path, i: nat)
    requires Healthy(d) && Past(r, d, p) && i <= |d.order|
    ensures Past(Advance(r, d, i).0, d, p)
    decreases |d.order| - i
  {
    if i < |d.order| {
      var f := d.order[i];
      assert CanOpen(d, f);
      if d.files[f].inode in r.done || f == r.file {
        AdvancePast(r, d, p, i + 1);
      }
    }
  }

  lemma TurnPast(r: Reader, d: Dir, from: Start, p: Path)
    requires Healthy(d) && Past(r, d, p)
    ensures Past(Iterate(r, d, from).r, d, p)
  {
    assert !Rotated(r, d);
    hide Healthy, Strip, Emit, Advance, Rotated;
    if NextChunk(r, d) == [] {
      AdvancePast(r, d, p, 0);
    }
  }

  lemma {:induction false} PastForever(r: Reader, d: Dir, from: Start, p: Path)
    requires Healthy(d) && Past(r, d, p)
    ensures !ReadFromStart(r, d, from, p)
  {
    forall n: nat ensures !AtFirstByte(Turns(r, d, from, n), d, from, p) {
      TurnsPast(r, d, from, p, n);
    }
  }

  lemma {:induction false} TurnsPast(r: Reader, d: Dir, from: Start, p: Path, n: nat)
    requires Healthy(d) && Past(r, d, p)
    ensures Past(Turns(r, d, from, n), d, p)
    decreases n
  {
    hide Healthy, Past, Iterate;
    if n > 0 {
      TurnPast(r, d, from, p);
      TurnsPast(Iterate(r, d, from).r, d, from, p, n - 1);
    }
  }

  /** The file at which a reader without a current file starts is `p`, and it starts at the first
      byte of it. */
  ghost predicate StartsAt(d: Dir, from: Start, p: Path) {
    d.order != [] && StartFile(d, from) == p && (from.Oldest? || Content(d, p) == [])
  }

  lemma ClosedPast(r: Reader, d: Dir, from: Start, p: Path)
    requires Healthy(d) && p in d.order && !r.open && r.file == "" && d.files[p].inode in r.done
    ensures ReadFromStart(r, d, from, p) <==> StartsAt(d, from, p)
  {
    var o := OpenFile(r, d, from).0;
    assert StartFile(d, from) in d.order;
    assert AtFirstByte(r, d, from, p) <==> StartsAt(d, from, p);
    NowOrLater(r, d, from, p);
    if !StartsAt(d, from, p) {
      assert Past(o, d, p);
      hide Healthy, StartsAt, Past, OpenFile;
      TurnPast(o, d, from, p);
      IterateOpens(r, d, from);
      PastForever(Iterate(o, d, from).r, d, from, p);
    }
  }

  /** After a rotation the old file, and any file done before, is read from its first byte again
      if and only if no file is left to go on with and it is the one to start over at. */
  lemma {:induction false} RotatedRestart(r: Reader, d: Dir, from: Start, p: Path)
    requires Healthy(d) && r.inode != 0 && Rotated(r, d)
    requires p in d.order && d.files[p].inode in MarkDone(r).done
    ensures ReadFromStart(Iterate(r, d, from).r, d, from, p) <==> AfterRotation(r, d) == {} && StartsAt(d, from, p)
  {
    RotationTurn(r, d, from);
    var r' := Iterate(r, d, from).r;
    hide Iterate, Remaining, StartsAt;
    if AfterRotation(r, d) != {} {
      assert r'.file != p;
      PastForever(r', d, from, p);
    } else {
      ClosedPast(r', d, from, p);
    }
  }

  /** A file truncated in place is marked done under its own inode: its new content is read from
      its first byte if and only if no other file is left and it is the one to start over at. */
  lemma {:induction false} TruncatedInPlace(r: Reader, d: Dir, from: Start)
    requires Healthy(d) && r.open && r.inode != 0 && r.file in d.order && d.files[r.file].inode == r.inode
    requires |Content(d, r.file)| < r.offset
    ensures ReadFromStart(r, d, from, r.file) <==> AfterRotation(r, d) == {} && StartsAt(d, from, r.file)
  {
    NowOrLater(r, d, from, r.file);
    assert Rotated(r, d);
    hide Healthy, Rotated, Iterate, AfterRotation, StartsAt;
    RotatedRestart(r, d, from, r.file);
  }

  // ---------------------------------------------------------------- every unread file is read

  /** From the end of its file the reader moves to the first byte of an unread one. */
  lemma {:induction false} AdvanceStarts(r: Reader, d: Dir, i: nat)
    requires Healthy(d) && Settled(r, d) && r.open && i <= |d.order| && Unread(r, d) != {}
    requires forall j :: 0 <= j < i ==> d.order[j] !in Unread(r, d)
    ensures var (r', ok) := Advance(r, d, i);
            && ok && r'.open && Settled(r', d) && r'.offset == 0 && r'.file in Unread(r, d)
            && Unread(r', d) == Unread(r, d) - {r'.file}
    decreases |d.order| - i
  {
    var u :| u in Unread(r, d);
    var k :| 0 <= k < |d.order| && d.order[k] == u;
    assert i <= k;
    var p := d.order[i];
    assert CanOpen(d, p);
    if d.files[p].inode in r.done || p == r.file {
      AdvanceStarts(r, d, i + 1);
    } else {
      UnreadAfterMark(r, Advance(r, d, i).0, d);
    }
  }

  /** One turn of an open reader: it reads on in its file, or moves to the first byte of an
      unread one. */
  lemma TurnStarts(r: Reader, d: Dir, from: Start, p: Path)
    requires Healthy(d) && Settled(r, d) && r.open && p in Unread(r, d)
    ensures var t := Iterate(r, d, from);
            && t.more && t.r.open && Settled(t.r, d)
            && (p in Unread(t.r, d) || AtFirstByte(t.r, d, from, p))
  {
    assert !Rotated(r, d);
    hide Healthy, Strip, Emit, Rotated, Advance;
    if NextChunk(r, d) == [] {
      assert r.(offset := r.offset + 0) == r;
      AdvanceStarts(r, d, 0);
    } else {
      ChunkKeeps(r, d);
      assert Unread(r.(offset := r.offset + |NextChunk(r, d)|), d) == Unread(r, d);
    }
  }

  /** Every file that is listed, not done and not the current one is read from its first byte,
      after finitely many turns. */
  lemma {:induction false} UnreadIsRead(r: Reader, d: Dir, from: Start, p: Path)
    requires Healthy(d) && Settled(r, d) && r.open && p in Unread(r, d)
    ensures ReadFromStart(r, d, from, p)
    decreases NotDone(r, d), Rank(r, d), Left(r, d)
  {
    hide Iterate, Healthy, Settled, Unread, NotDone, Rank, Left, AtFirstByte;
    TurnStarts(r, d, from, p);
    ReadyToRead(r, d);
    IterateShrinks(r, d, from);
    NowOrLater(r, d, from, p);
    var r1 := Iterate(r, d, from).r;
    NowOrLater(r1, d, from, p);
    if !AtFirstByte(r1, d, from, p) {
      UnreadIsRead(r1, d, from, p);
    }
  }

  /** Why the finished inodes are pruned.  A file was done and then removed; the directory is
      `before` when the reader commits, and later another file `p` has the same inode.  After that
      commit `p` is read from its first byte; without it, it would never be. */
  lemma {:induction false} ReusedInode(r: Reader, before: Dir, after: Dir, from: Start, p: Path)
    requires Healthy(after) && Settled(r, after) && r.open && p in after.order && p != r.file
    requires after.files[p].inode in r.done
    requires forall q :: q in before.files ==> before.files[q].inode != after.files[p].inode
    ensures ReadFromStart(r.(done := Prune(r.done, before)), after, from, p)
    ensures !ReadFromStart(r, after, from, p)
  {
    var r' := r.(done := Prune(r.done, before));
    PruneExact(r.done, before, after.files[p].inode);
    assert Settled(r', after) && p in Unread(r', after);
    assert Past(r, after, p);
    hide Healthy, Settled, Unread, Past, Prune;
    UnreadIsRead(r', after, from, p);
    PastForever(r, after, from, p);
  }

  // ---------------------------------------------------------------- replaced while the agent is down

  /** Every listed file but the current one is marked done in the state file. */
  ghost predicate NothingElse(s: Saved, d: Dir) {
    forall p :: p in d.order && p in d.files && p != s.file ==> d.files[p].inode in s.done
  }

  /** The inode of the open file is not in the state file, so a restarted reader takes whatever
      file has the name for the old one.  That file is read from its first byte if and only if
      the saved offset is 0, or lies past the end of the file while nothing else is left and the
      file is the one to start over at. */
  lemma {:induction false} ReplacedWhileDown(s: Saved, d: Dir, from: Start)
    requires Healthy(d) && s.file in d.order
    ensures ReadFromStart(Load(s), d, from, s.file) <==>
            var len := |Content(d, s.file)|;
            || s.offset == 0
            || (s.offset < 0 && len == 0)
            || (s.offset > len && NothingElse(s, d) && StartsAt(d, from, s.file))
  {
    var l, p := Load(s), s.file;
    var o := OpenFile(l, d, from).0;
    NowOrLater(l, d, from, p);
    IterateOpens(l, d, from);
    if s.offset > |Content(d, p)| {
      assert Rotated(o, d) && o.inode != 0;
      assert AfterRotation(o, d) == {} <==> NothingElse(s, d) by { OthersLeft(s, d, o); }
      RotatedRestart(o, d, from, p);
    } else if s.offset > 0 || (s.offset < 0 && |Content(d, p)| > 0) {
      assert Past(o, d, p);
      TurnPast(o, d, from, p);
      PastForever(Iterate(o, d, from).r, d, from, p);
    }
  }

  lemma OthersLeft(s: Saved, d: Dir, o: Reader)
    requires Healthy(d) && s.file in d.order && o.done == s.done && o.inode == d.files[s.file].inode
    ensures AfterRotation(o, d) == Unread(Load(s), d)
    ensures AfterRotation(o, d) == {} <==> NothingElse(s, d)
  {
    forall p | p in Unread(Load(s), d) ensures p in AfterRotation(o, d) {
    }
    if !NothingElse(s, d) {
      var p :| p in d.order && p in d.files && p != s.file && d.files[p].inode !in s.done;
      assert p in AfterRotation(o, d);
    }
  }

  /** What a restarted reader emits of a replaced file: the lines behind the old offset; none at
      all, if the file is shorter than that and another is left; and else what starting over
      brings. */
  lemma {:induction false} ReplacedStream(s: Saved, d: Dir, from: Start)
    requires Healthy(d) && s.file in d.order && s.offset >= 0
    ensures var l, c, others := Load(s), Content(d, s.file), Unread(Load(s), d);
            if s.offset <= |c| then
              Settled(l, d) && Remaining(l, d, from) == NonEmptyLines(c[s.offset..]) + Pending(d, others, 0)
            else
              var t := Iterate(l, d, from);
              && t.out == [] && Settled(t.r, d)
              && Remaining(t.r, d, from) == if others != {} then Pending(d, others, 0) else Again(d, from)
  {
    var l, c := Load(s), Content(d, s.file);
    if s.offset <= |c| {
      RecordsAreLines(c[s.offset..]);
    } else {
      var o := OpenFile(l, d, from).0;
      assert Rotated(o, d) && o.inode != 0;
      OthersLeft(s, d, o);
      IterateOpens(l, d, from);
      RotationTurn(o, d, from);
    }
  }

  // ---------------------------------------------------------------- renamed while the agent is down

  /** The saved path is gone: the first turn finds nothing to open, and the reader goes on with
      every listed file that is not done, from its first byte; if there is none, it starts over. */
  lemma {:induction false} VanishedWhileDown(s: Saved, d: Dir, from: Start)
    requires Healthy(d) && s.file != "" && s.file !in d.files
    ensures var t, rest := Iterate(Load(s), d, from), Unread(Load(s), d);
            && t.out == [] && (t.more <==> rest != {}) && Settled(t.r, d)
            && Remaining(t.r, d, from) == if rest != {} then Pending(d, rest, 0) else Again(d, from)
  {
    var l := Load(s);
    var r := l.(file := "");
    assert ReadLine(l, d, from).r == r;
    assert Unread(r, d) == Unread(l, d);
    assert r.(offset := r.offset + 0) == r;
    hide Healthy, Pending, Tail, Unread, Again;
    if Unread(r, d) != {} {
      AdvanceFromNone(r, d, 0);
    } else {
      AdvanceNowhere(r, d, 0);
      StartsOver(r, d, from);
    }
  }

  /** The records of the files in `todo` that are due when `moved` was already read up to `at`. */
  ghost function Due(d: Dir, todo: set<Path>, i: nat, moved: Path, at: nat): seq<Bytes>
    requires i <= |d.order| && at <= |Content(d, moved)|
    decreases |d.order| - i
  {
    if i == |d.order| then []
    else
      (if d.order[i] !in todo then [] else
       if d.order[i] == moved then NonEmptyLines(Content(d, moved)[at..]) else NonEmptyLines(Content(d, d.order[i])))
      + Due(d, todo, i + 1, moved, at)
  }

  lemma {:induction false} DueWithout(d: Dir, todo: set<Path>, i: nat, moved: Path, at: nat)
    requires i <= |d.order| && at <= |Content(d, moved)|
    requires forall k :: i <= k < |d.order| ==> d.order[k] != moved
    ensures Due(d, todo, i, moved, at) == Pending(d, todo, i)
    decreases |d.order| - i
  {
    hide NonEmptyLines, Records, Content;
    if i < |d.order| {
      RecordsAreLines(Content(d, d.order[i]));
      DueWithout(d, todo, i + 1, moved, at);
    }
  }

  lemma CancelFront(x: seq<Bytes>, a: seq<Bytes>, b: seq<Bytes>)
    ensures x + a == x + b <==> a == b
  {
    assert (x + a)[|x|..] == a && (x + b)[|x|..] == b;
  }

  lemma {:induction false} DueExact(d: Dir, todo: set<Path>, i: nat, k: nat, at: nat)
    requires Healthy(d) && i <= k < |d.order| && d.order[k] in todo && at <= |Content(d, d.order[k])|
    ensures Pending(d, todo, i) == Due(d, todo, i, d.order[k], at) <==> NothingBefore(Content(d, d.order[k]), at)
    decreases k - i
  {
    hide Healthy, NonEmptyLines, Records, Content, NothingBefore;
    var f, moved := d.order[i], d.order[k];
    RecordsAreLines(Content(d, f));
    OrderDistinct(d, k);
    if i == k {
      DueWithout(d, todo, i + 1, moved, at);
      SuffixExact(Content(d, moved), at);
      Cancel(NonEmptyLines(Content(d, moved)), NonEmptyLines(Content(d, moved)[at..]), Pending(d, todo, i + 1));
    } else {
      DueExact(d, todo, i + 1, k, at);
      CancelFront(if f in todo then Records(Content(d, f)) else [], Pending(d, todo, i + 1), Due(d, todo, i + 1, moved, at));
    }
  }

  /** The file was renamed while the agent was down.  Its inode is not in the state file unless it
      was done before, so under its new name it is read again from its first byte: what is emitted
      is what was due if and only if nothing of it had been emitted. */
  lemma {:induction false} RenamedWhileDown(s: Saved, d: Dir, from: Start, k: nat)
    requires Healthy(d) && s.file != "" && s.file !in d.files
    requires k < |d.order| && CanOpen(d, d.order[k]) && d.files[d.order[k]].inode !in s.done
    requires 0 <= s.offset <= |Content(d, d.order[k])|
    ensures var t, todo, moved := Iterate(Load(s), d, from), Unread(Load(s), d), d.order[k];
            && t.out == [] && Settled(t.r, d) && moved in todo
            && Remaining(t.r, d, from) == Pending(d, todo, 0)
            && (Remaining(t.r, d, from) == Due(d, todo, 0, moved, s.offset) <==> NothingBefore(Content(d, moved), s.offset))
  {
    assert d.order[k] in d.order && d.order[k] in Unread(Load(s), d);
    VanishedWhileDown(s, d, from);
    hide Iterate, Remaining, Unread, Pending, NothingBefore;
    DueExact(d, Unread(Load(s), d), 0, k, s.offset);
  }

  /** A running reader notices the replacement and reads the new file from its first byte with
      all others that are not done; the restarted one does not. */
  lemma {:induction false} RunningNotices(r: Reader, d: Dir, from: Start)
    requires Healthy(d) && r.open && r.inode != 0 && r.file in d.order
    requires d.files[r.file].inode != r.inode && d.files[r.file].inode !in r.done
    ensures r.file in AfterRotation(r, d)
    ensures Remaining(Iterate(r, d, from).r, d, from) == Pending(d, AfterRotation(r, d), 0)
  {
    assert Rotated(r, d);
    hide Rotated, Pending;
    RotationTurn(r, d, from);
  }
}
