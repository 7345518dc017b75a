/** Restarting the agent is invisible in the record stream.  Committing prunes the finished
    inodes and persists the position; loading starts a closed reader from it.  On an unchanging
    directory the restarted reader answers every later sequence of batches exactly as the
    original would have. */
module DirRestart {
  import opened DirReader
  import opened DirStream

  /** The persisted state (the inode of the open file is not part of it). */
  datatype Saved = Saved(file: Path, offset: int, done: map<nat, int>)

  function PresentInodes(d: Dir): set<nat> {
    set p | p in d.files :: d.files[p].inode
  }

  function Prune(done: map<nat, int>, d: Dir): map<nat, int> {
    map n | n in done && n in PresentInodes(d) :: done[n]
  }

  /** Pruning removes exactly the inodes that no file in the directory has. */
  lemma PruneExact(done: map<nat, int>, d: Dir, n: nat)
    ensures n in Prune(done, d) <==> n in done && exists p :: p in d.files && d.files[p].inode == n
    ensures n in Prune(done, d) ==> Prune(done, d)[n] == done[n]
  {
  }

  function Save(r: Reader, d: Dir): Saved {
    Saved(r.file, r.offset, Prune(r.done, d))
  }

  function Load(s: Saved): Reader {
    Reader(false, s.file, 0, s.offset, s.done)
  }

  /** Same position, the same files done; one may have the file open and the other not. */
  ghost predicate Alike(a: Reader, b: Reader, d: Dir) {
    && a.file == b.file && a.offset == b.offset
    && (forall p :: p in d.files ==> (d.files[p].inode in a.done <==> d.files[p].inode in b.done))
    && OnFile(a, d) && OnFile(b, d)
  }

  ghost predicate Twins(a: Reader, b: Reader, d: Dir) {
    Alike(a, b, d) && a.open == b.open
  }

  lemma OpenAlike(a: Reader, b: Reader, d: Dir, from: Start)
    requires Alike(a, b, d) && Inodes(d)
    ensures var (a', aok) := if a.open then (a, true) else OpenFile(a, d, from);
            var (b', bok) := if b.open then (b, true) else OpenFile(b, d, from);
            aok == bok && (aok ==> a'.open) && Twins(a', b', d)
  {
  }

  lemma {:induction false} AdvanceTwins(a: Reader, b: Reader, d: Dir, i: nat)
    requires Twins(a, b, d) && i <= |d.order| && Inodes(d)
    ensures var (a', aok) := Advance(a, d, i);
            var (b', bok) := Advance(b, d, i);
            aok == bok && Twins(a', b', d)
    decreases |d.order| - i
  {
    if i < |d.order| {
      var p := d.order[i];
      if p !in d.files || d.files[p].inode in a.done || p == a.file {
        AdvanceTwins(a, b, d, i + 1);
      } else {
        var a0 := if a.open then MarkDone(a).(open := false) else a;
        var b0 := if b.open then MarkDone(b).(open := false) else b;
        var (a1, aok) := OpenFile(a0.(file := p, offset := 0), d, Oldest);
        var (b1, bok) := OpenFile(b0.(file := p, offset := 0), d, Oldest);
        if !aok {
          AdvanceTwins(a1, b1, d, i + 1);
        }
      }
    }
  }

  /** Pruning never changes which file the reader advances to. */
  lemma PruneKeepsChoice(r: Reader, d: Dir, i: nat)
    requires OnFile(r, d) && i <= |d.order| && Inodes(d)
    ensures var (a, aok) := Advance(r, d, i);
            var (b, bok) := Advance(r.(done := Prune(r.done, d)), d, i);
            aok == bok && a.file == b.file && a.open == b.open && a.offset == b.offset
  {
    AdvanceTwins(r, r.(done := Prune(r.done, d)), d, i);
  }

  lemma {:induction false} ReadLineAlike(a: Reader, b: Reader, d: Dir, from: Start)
    requires Alike(a, b, d) && Inodes(d)
    ensures var la, lb := ReadLine(a, d, from), ReadLine(b, d, from);
            la.raw == lb.raw && la.eof == lb.eof && Twins(la.r, lb.r, d)
  {
    OpenAlike(a, b, d, from);
    hide OpenFile, Inodes, NextChunk;
    var (a', aok) := if a.open then (a, true) else OpenFile(a, d, from);
    var (b', bok) := if b.open then (b, true) else OpenFile(b, d, from);
    assert aok ==> Rotated(a', d) == Rotated(b', d);
    assert aok && !Rotated(a', d) ==> NextChunk(a', d) == NextChunk(b', d) by { SameChunk(a', b', d); }
  }

  lemma SameChunk(a: Reader, b: Reader, d: Dir)
    requires a.file == b.file && a.offset == b.offset
    ensures NextChunk(a, d) == NextChunk(b, d)
  {
  }

  lemma IterateAlike(a: Reader, b: Reader, d: Dir, from: Start)
    requires Alike(a, b, d) && Inodes(d)
    ensures var s, t := Iterate(a, d, from), Iterate(b, d, from);
            s.out == t.out && s.more == t.more && Alike(s.r, t.r, d)
  {
    hide ReadLine, Advance, Inodes;
    ReadLineAlike(a, b, d, from);
    var la, lb := ReadLine(a, d, from), ReadLine(b, d, from);
    var a', b' := la.r.(offset := la.r.offset + |la.raw|), lb.r.(offset := lb.r.offset + |lb.raw|);
    assert Twins(a', b', d);
    if la.eof {
      AdvanceTwins(a', b', d, 0);
    }
  }

  lemma {:induction false} BatchAlike(a: Reader, b: Reader, d: Dir, from: Start, size: nat, cut: nat -> bool, i: nat)
    requires Alike(a, b, d) && Inodes(d)
    ensures var s, t := ReadBatch(a, d, from, size, cut, i), ReadBatch(b, d, from, size, cut, i);
            s.out == t.out && s.end == t.end && Alike(s.r, t.r, d)
    decreases NotDone(a, d), Rank(a, d), Left(a, d)
  {
    hide Iterate, Inodes, NotDone, Rank, Left;
    if size > 0 && !cut(i) {
      IterateShrinks(a, d, from);
      IterateShrinks(b, d, from);
      IterateAlike(a, b, d, from);
      var s, t := Iterate(a, d, from), Iterate(b, d, from);
      if s.more {
        BatchAlike(s.r, t.r, d, from, size - |s.out|, cut, i + 1);
      }
    }
  }

  lemma {:induction false} ReadAllAlike(a: Reader, b: Reader, d: Dir, from: Start, calls: seq<Call>)
    requires Alike(a, b, d) && Inodes(d)
    ensures ReadAll(a, d, from, calls).1 == ReadAll(b, d, from, calls).1
    decreases |calls|
  {
    hide ReadBatch, Inodes;
    if calls != [] {
      BatchAlike(a, b, d, from, calls[0].size, calls[0].cut, 0);
      var s := ReadBatch(a, d, from, calls[0].size, calls[0].cut, 0);
      var t := ReadBatch(b, d, from, calls[0].size, calls[0].cut, 0);
      ReadAllAlike(s.r, t.r, d, from, calls[1..]);
    }
  }

  lemma ReloadAlike(r: Reader, d: Dir)
    requires OnFile(r, d)
    ensures Alike(r, Load(Save(r, d)), d)
  {
    forall p | p in d.files ensures d.files[p].inode in PresentInodes(d) {
    }
  }

  /** Commit, kill, load: every later sequence of batches yields the same records as if the
      reader had never been restarted. */
  lemma {:induction false} RestartTransparent(r: Reader, d: Dir, from: Start, calls: seq<Call>)
    requires OnFile(r, d) && Inodes(d)
    ensures ReadAll(Load(Save(r, d)), d, from, calls).1 == ReadAll(r, d, from, calls).1
  {
    ReloadAlike(r, d);
    ReadAllAlike(r, Load(Save(r, d)), d, from, calls);
  }

  /** The same in terms of the stream still to come. */
  lemma {:induction false} ReloadRemaining(r: Reader, d: Dir, from: Start)
    requires Healthy(d) && Settled(r, d)
    ensures Settled(Load(Save(r, d)), d)
    ensures Remaining(Load(Save(r, d)), d, from) == Remaining(r, d, from)
  {
    ReloadAlike(r, d);
    var r' := Load(Save(r, d));
    if r.file != "" {
      assert Unread(r', d) == Unread(r, d);
    } else if d.order != [] {
      var f := StartFile(d, from);
      assert Unread(r'.(file := f), d) == Unread(r.(file := f), d);
    }
  }
}
