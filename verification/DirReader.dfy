/** The directory reader as functions over one snapshot of the directory: opening, rotation,
    reading one line, advancing to the next file, and a whole batch.  The class
    `DirInput.Input` implements these step by step; the theorems about record streams are in
    `DirStream`, `DirRestart`, `DirGrowth`, `DirRotation` and `DirSwitch`.

    An inode key is the inode itself (the program formats it in decimal), and a path is "" when
    there is no current file. */
module DirReader {
  import opened Basics
  import opened Lines

  type Path = string

  datatype File = File(inode: nat, mtime: int, content: Bytes, readable: bool)

  /** One snapshot of the directory: every regular file in it, and the paths that pass the name
      filter, oldest modification time first. */
  datatype Dir = Dir(files: map<Path, File>, order: seq<Path>)

  datatype Reader = Reader(open: bool, file: Path, inode: nat, offset: int, done: map<nat, int>)

  /** Where a reader starts that has no current file. */
  datatype Start = Oldest | Newest

  const FRESH := Reader(false, "", 0, 0, map[])

  function Content(d: Dir, p: Path): Bytes {
    if p in d.files then d.files[p].content else []
  }

  predicate CanOpen(d: Dir, p: Path) {
    p in d.files && d.files[p].readable
  }

  function StartFile(d: Dir, from: Start): Path
    requires d.order != []
  {
    if from.Newest? then d.order[|d.order| - 1] else d.order[0]
  }

  function OpenFile(r: Reader, d: Dir, from: Start): (Reader, bool) {
    if r.file == "" && d.order == [] then (r, false)
    else
      var target := if r.file != "" then r.file else StartFile(d, from);
      var at := if r.file != "" then r.offset else if from.Newest? then -1 else 0;
      if !CanOpen(d, target) then (r.(file := ""), false)
      else
        var f := d.files[target];
        (Reader(true, target, f.inode, if at < 0 then |f.content| else at, r.done), true)
  }

  predicate Rotated(r: Reader, d: Dir) {
    r.open && r.file != "" &&
    (r.file !in d.files
     || (d.files[r.file].inode != 0 && r.inode != 0 && d.files[r.file].inode != r.inode)
     || |d.files[r.file].content| < r.offset)
  }

  function MarkDone(r: Reader): Reader {
    if r.inode != 0 then r.(done := r.done[r.inode := r.offset]) else r
  }

  /** The bytes the next `ReadString` returns for an open, unrotated reader. */
  function NextChunk(r: Reader, d: Dir): (c: Bytes)
    ensures |c| > 0 <==> 0 <= r.offset < |Content(d, r.file)|
  {
    var s := Content(d, r.file);
    if 0 <= r.offset < |s| then s[r.offset..][..ChunkLen(s[r.offset..])] else []
  }

  /** Outcome of one `readLine`: the chunk consumed and whether it reported end of file. */
  datatype Line = Line(r: Reader, raw: Bytes, eof: bool)

  function ReadLine(r: Reader, d: Dir, from: Start): (l: Line)
    ensures l.eof <==> l.raw == []
  {
    var (r1, ok) := if r.open then (r, true) else OpenFile(r, d, from);
    if !ok then Line(r1, [], true)
    else if Rotated(r1, d) then Line(MarkDone(r1).(open := false, file := "", offset := 0), [], true)
    else Line(r1, NextChunk(r1, d), NextChunk(r1, d) == [])
  }

  /** `advanceFile` from entry `i` of the listing on. */
  function Advance(r: Reader, d: Dir, i: nat): (Reader, bool)
    requires i <= |d.order|
    decreases |d.order| - i
  {
    if i == |d.order| then (r, false)
    else
      var p := d.order[i];
      if p !in d.files || d.files[p].inode in r.done || p == r.file then Advance(r, d, i + 1)
      else
        var closed := if r.open then MarkDone(r).(open := false) else r;
        var (next, ok) := OpenFile(closed.(file := p, offset := 0), d, Oldest);
        if ok then (next, true) else Advance(next, d, i + 1)
  }

  /** One turn of the `ReadBatch` loop: new state, records emitted, and whether to go on. */
  datatype Turn = Turn(r: Reader, out: seq<Bytes>, more: bool)

  function Iterate(r: Reader, d: Dir, from: Start): (t: Turn)
    ensures |t.out| <= 1
  {
    var l := ReadLine(r, d, from);
    var r1 := l.r.(offset := l.r.offset + |l.raw|);
    if l.eof then
      var (r2, advanced) := Advance(r1, d, 0);
      Turn(r2, [], advanced)
    else
      Turn(r1, Emit(Strip(l.raw)), true)
  }

  // ---------------------------------------------------------------- termination

  /** An open reader is on the file its path names, as it is from opening until the directory
      changes. */
  ghost predicate OnFile(r: Reader, d: Dir) {
    r.open ==> r.file != "" && CanOpen(d, r.file) && d.files[r.file].inode == r.inode && 0 <= r.offset
  }

  /** Listed files have an inode and a name. */
  ghost predicate Inodes(d: Dir) {
    && "" !in d.order
    && forall p :: p in d.order && p in d.files ==> d.files[p].inode != 0
  }

  ghost function NotDone(r: Reader, d: Dir): set<Path> {
    set p | p in d.order && p in d.files && d.files[p].inode !in r.done
  }

  ghost function Rank(r: Reader, d: Dir): nat {
    if !OnFile(r, d) then 3 else if !r.open then 2 else if r.file in NotDone(r, d) then 0 else 1
  }

  ghost function Left(r: Reader, d: Dir): nat {
    if r.open && 0 <= r.offset <= |Content(d, r.file)| then |Content(d, r.file)| - r.offset else 0
  }

  /** The measure: files not yet done, then how settled the reader is, then bytes left. */
  ghost predicate Smaller(a: Reader, b: Reader, d: Dir) {
    || NotDone(a, d) < NotDone(b, d)
    || (NotDone(a, d) == NotDone(b, d) && Rank(a, d) < Rank(b, d))
    || (NotDone(a, d) == NotDone(b, d) && Rank(a, d) == Rank(b, d) && Left(a, d) < Left(b, d))
  }

  /** After an advance from a closed reader, the new file is one that was not done. */
  lemma {:induction false} AdvanceClosed(r: Reader, d: Dir, i: nat)
    requires i <= |d.order| && Inodes(d) && !r.open
    ensures var (r', ok) := Advance(r, d, i);
            ok == r'.open && OnFile(r', d) && r'.done == r.done && (ok ==> Rank(r', d) == 0)
    decreases |d.order| - i
  {
    if i < |d.order| {
      var p := d.order[i];
      if p !in d.files || d.files[p].inode in r.done || p == r.file {
        AdvanceClosed(r, d, i + 1);
      } else {
        var (next, ok) := OpenFile(r.(file := p, offset := 0), d, Oldest);
        if !ok {
          AdvanceClosed(next, d, i + 1);
        }
      }
    }
  }

  lemma {:induction false} AdvanceOpen(r: Reader, d: Dir, i: nat)
    requires i <= |d.order| && Inodes(d) && r.open
    ensures var (r', ok) := Advance(r, d, i);
            (OnFile(r, d) || ok ==> OnFile(r', d)) && (ok ==> r'.open && Smaller(r', r, d))
    decreases |d.order| - i
  {
    if i < |d.order| {
      var p := d.order[i];
      if p !in d.files || d.files[p].inode in r.done || p == r.file {
        AdvanceOpen(r, d, i + 1);
      } else {
        var closed := MarkDone(r).(open := false);
        var (next, ok) := OpenFile(closed.(file := p, offset := 0), d, Oldest);
        if !ok {
          AdvanceClosed(next, d, i + 1);
        }
        AdvancedIsSmaller(r, Advance(r, d, i).0, d);
      }
    }
  }

  /** Leaving a file for a listed one that is not done shrinks the measure. */
  lemma AdvancedIsSmaller(r: Reader, r': Reader, d: Dir)
    requires Inodes(d) && r.open
    requires r'.done == MarkDone(r).done
    requires r'.open ==> r'.file in NotDone(r, d) && OnFile(r', d)
    ensures r'.open ==> Smaller(r', r, d)
  {
    assert NotDone(r', d) <= NotDone(r, d);
    assert OnFile(r, d) && r.file in NotDone(r, d) ==> r.file !in NotDone(r', d);
  }

  /** Every turn that goes on shrinks the measure, from any reader state: closed or open, on its
      file or with the file rotated away, at an offset inside the file or past its end. */
  lemma IterateShrinks(r: Reader, d: Dir, from: Start)
    requires Inodes(d)
    ensures var t := Iterate(r, d, from);
            (OnFile(r, d) ==> OnFile(t.r, d)) && (t.more ==> Smaller(t.r, r, d))
  {
    var l := ReadLine(r, d, from);
    var (r1, ok) := if r.open then (r, true) else OpenFile(r, d, from);
    hide NextChunk, Strip, Emit;
    if !ok {
      AdvanceClosed(l.r, d, 0);
    } else if Rotated(r1, d) {
      AdvanceClosed(l.r, d, 0);
      var r2 := Advance(l.r, d, 0).0;
      if r2.open {
        AdvancedIsSmaller(r1, r2, d);
      }
    } else if l.eof {
      AdvanceOpen(r1, d, 0);
    }
  }

  // ---------------------------------------------------------------- a whole batch

  /** Why a batch ended: it was full, the deadline or the context cut it, or there was no file
      left to advance to. */
  datatype End = Full | Cut | Idle

  datatype Batch = Batch(r: Reader, out: seq<Bytes>, end: End)

  /** `ReadBatch` for `size` records; `cut(i)` says whether the deadline has passed (or the
      context is done) when turn `i` starts.  It terminates for every `cut`, also for one that
      never fires. */
  function ReadBatch(r: Reader, d: Dir, from: Start, size: nat, cut: nat -> bool, i: nat): (b: Batch)
    requires Inodes(d)
    ensures OnFile(r, d) ==> OnFile(b.r, d)
    ensures |b.out| <= size
    ensures b.end.Full? <==> |b.out| == size
    decreases NotDone(r, d), Rank(r, d), Left(r, d)
  {
    if size == 0 then Batch(r, [], Full)
    else if cut(i) then Batch(r, [], Cut)
    else
      IterateShrinks(r, d, from);
      var t := Iterate(r, d, from);
      if !t.more then Batch(t.r, t.out, Idle)
      else
        var b := ReadBatch(t.r, d, from, size - |t.out|, cut, i + 1);
        Batch(b.r, t.out + b.out, b.end)
  }

  lemma BatchTurn(r: Reader, d: Dir, from: Start, size: nat, cut: nat -> bool, i: nat)
    requires Inodes(d) && size > 0 && !cut(i)
    ensures var t := Iterate(r, d, from);
            ReadBatch(r, d, from, size, cut, i) ==
               if !t.more then Batch(t.r, t.out, Idle)
               else var b := ReadBatch(t.r, d, from, size - |t.out|, cut, i + 1);
                    Batch(b.r, t.out + b.out, b.end)
  {
    hide Iterate, Inodes, NotDone, Rank, Left;
    IterateShrinks(r, d, from);
  }

  /** The deadline is honoured: a batch has at most as many records as turns before it, and ends
      with `Cut` only at a turn that finds it passed. */
  lemma {:induction false} BatchCut(r: Reader, d: Dir, from: Start, size: nat, cut: nat -> bool, i: nat, j: nat)
    requires Inodes(d) && i <= j
    ensures cut(j) ==> |ReadBatch(r, d, from, size, cut, i).out| <= j - i
    ensures ReadBatch(r, d, from, size, cut, i).end.Cut? ==> exists k: nat :: i <= k && cut(k)
    ensures (forall k: nat :: i <= k <= j ==> cut(k)) && size > 0 ==> ReadBatch(r, d, from, size, cut, i) == Batch(r, [], Cut)
    decreases NotDone(r, d), Rank(r, d), Left(r, d)
  {
    hide Iterate, Inodes, NotDone, Rank, Left;
    if size > 0 && !cut(i) {
      IterateShrinks(r, d, from);
      var t := Iterate(r, d, from);
      if t.more {
        BatchCut(t.r, d, from, size - |t.out|, cut, i + 1, if j > i then j else i + 1);
      }
    }
  }

  /** Reading on from `r`, with `got` already collected, completes the batch `whole`. */
  ghost predicate Completes(whole: Batch, r: Reader, d: Dir, from: Start, size: nat, cut: nat -> bool, i: nat,
                            got: seq<Bytes>) {
    && Inodes(d) && |got| <= size
    && var b := ReadBatch(r, d, from, size - |got|, cut, i);
       whole == Batch(b.r, got + b.out, b.end)
  }

  lemma CompletesStart(r: Reader, d: Dir, from: Start, size: nat, cut: nat -> bool)
    requires Inodes(d)
    ensures Completes(ReadBatch(r, d, from, size, cut, 0), r, d, from, size, cut, 0, [])
  {
  }

  lemma {:induction false} CompletesTurn(whole: Batch, r: Reader, d: Dir, from: Start, size: nat, cut: nat -> bool, i: nat,
                      got: seq<Bytes>)
    requires Completes(whole, r, d, from, size, cut, i, got) && |got| < size && !cut(i)
    ensures var t := Iterate(r, d, from);
            && (t.more ==> Smaller(t.r, r, d) && |got + t.out| <= size)
            && if t.more then Completes(whole, t.r, d, from, size, cut, i + 1, got + t.out)
               else whole == Batch(t.r, got + t.out, Idle)
  {
    hide Iterate, Inodes, Smaller, ReadBatch;
    IterateShrinks(r, d, from);
    BatchTurn(r, d, from, size - |got|, cut, i);
    var t := Iterate(r, d, from);
    if t.more {
      var b := ReadBatch(t.r, d, from, size - |got| - |t.out|, cut, i + 1);
      Assoc(got, t.out, b.out);
      assert |got + t.out| == |got| + |t.out|;
    }
  }

  lemma CompletesEnd(whole: Batch, r: Reader, d: Dir, from: Start, size: nat, cut: nat -> bool, i: nat,
                     got: seq<Bytes>)
    requires Completes(whole, r, d, from, size, cut, i, got) && (|got| == size || cut(i))
    ensures whole.r == r && whole.out == got
  {
  }
}
