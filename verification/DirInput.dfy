/** The directory input as the mutable object it is, each method proved against the functions
    of `DirReader` and `DirRestart`.  The directory snapshot, the deadline and the success of
    the write to disk are parameters. */
module DirInput {
  import opened Lines
  import opened DirReader
  import opened DirRestart
  import opened Basics

  /** The state file. */
  class MetaFile {
    var saved: Option<Saved>
  }

  class Input {
    const from: Start
    const meta: MetaFile
    var isOpen: bool
    var currentFile: Path
    var currentInode: nat
    var offset: int
    var doneInodes: map<nat, int>
    var stopped: bool
    var lag: int
    var readCount: nat

    function State(): Reader
      reads `isOpen, `currentFile, `currentInode, `offset, `doneInodes
    {
      Reader(isOpen, currentFile, currentInode, offset, doneInodes)
    }

    ghost predicate LagCurrent(d: Dir)
      reads `isOpen, `currentFile, `offset, `lag
    {
      isOpen ==> lag == if |Content(d, currentFile)| < offset then 0 else |Content(d, currentFile)| - offset
    }

    /** `NewDirInput`: starts from the state file if there is one, with the file still closed. */
    constructor (from: Start, meta: MetaFile)
      ensures this.from == from && this.meta == meta && !stopped && readCount == 0
      ensures State() == if meta.saved.Some? then Load(meta.saved.value) else FRESH
    {
      this.from, this.meta := from, meta;
      isOpen, currentFile, currentInode, offset, doneInodes := false, "", 0, 0, map[];
      stopped, lag, readCount := false, 0, 0;
      if meta.saved.Some? {
        currentFile, offset, doneInodes := meta.saved.value.file, meta.saved.value.offset, meta.saved.value.done;
      }
    }

    method UpdateLag(d: Dir)
      modifies `lag
      ensures LagCurrent(d)
    {
      if isOpen {
        var remaining := |Content(d, currentFile)| - offset;
        lag := if remaining < 0 then 0 else remaining;
      }
    }

    method OpenFile(d: Dir) returns (ok: bool)
      requires !isOpen
      modifies `isOpen, `currentFile, `currentInode, `offset, `lag
      ensures (State(), ok) == DirReader.OpenFile(old(State()), d, from)
      ensures ok ==> LagCurrent(d)
    {
      var target, targetOffset := "", 0;
      if currentFile != "" {
        target, targetOffset := currentFile, offset;
      } else {
        if d.order == [] {
          return false;
        }
        if from == Newest {
          target, targetOffset := d.order[|d.order| - 1], -1;
        } else {
          target, targetOffset := d.order[0], 0;
        }
      }
      if !CanOpen(d, target) {
        currentFile := "";
        return false;
      }
      if targetOffset < 0 {
        targetOffset := |d.files[target].content|;
      }
      isOpen, currentFile, offset, currentInode := true, target, targetOffset, d.files[target].inode;
      UpdateLag(d);
      ok := true;
    }

    method MarkCurrentDone()
      modifies `doneInodes
      ensures State() == MarkDone(old(State()))
    {
      if currentInode != 0 {
        doneInodes := doneInodes[currentInode := offset];
      }
    }

    method DetectRotation(d: Dir) returns (rotated: bool)
      ensures rotated == Rotated(State(), d)
    {
      if !isOpen || currentFile == "" {
        return false;
      }
      if currentFile !in d.files {
        return true;
      }
      var f := d.files[currentFile];
      if f.inode != 0 && currentInode != 0 && f.inode != currentInode {
        return true;
      }
      return |f.content| < offset;
    }

    /** Strips every trailing newline and carriage return. */
    static method StripLine(raw: Bytes) returns (line: Bytes)
      ensures line == Strip(raw)
    {
      line := raw;
      while |line| > 0 && (line[|line| - 1] == LF || line[|line| - 1] == CR)
        invariant Strip(line) == Strip(raw)
      {
        line := line[..|line| - 1];
      }
    }

    method ReadLine(d: Dir) returns (line: Bytes, n: nat, eof: bool)
      modifies `isOpen, `currentFile, `currentInode, `offset, `doneInodes, `lag
      ensures var l := DirReader.ReadLine(old(State()), d, from);
              State() == l.r && n == |l.raw| && line == Strip(l.raw) && eof == l.eof
      ensures old(LagCurrent(d)) ==> LagCurrent(d)
    {
      if !isOpen {
        var ok := OpenFile(d);
        if !ok {
          return [], 0, true;
        }
      }
      var rotated := DetectRotation(d);
      if rotated {
        MarkCurrentDone();
        isOpen, currentFile, offset := false, "", 0;
        return [], 0, true;
      }
      var raw := NextChunk(State(), d);
      n := |raw|;
      if n > 0 {
        line := StripLine(raw);
        return line, n, false;
      }
      return [], 0, true;
    }

    method AdvanceFile(d: Dir) returns (advanced: bool)
      requires Inodes(d)
      modifies `isOpen, `currentFile, `currentInode, `offset, `doneInodes, `lag
      ensures (State(), advanced) == Advance(old(State()), d, 0)
      ensures old(LagCurrent(d)) ==> LagCurrent(d)
    {
      for i := 0 to |d.order|
        invariant Advance(State(), d, i) == Advance(old(State()), d, 0)
        invariant old(LagCurrent(d)) ==> LagCurrent(d)
      {
        var path := d.order[i];
        if path !in d.files || d.files[path].inode in doneInodes || path == currentFile {
          continue;
        }
        if isOpen {
          MarkCurrentDone();
          isOpen := false;
        }
        currentFile, offset := path, 0;
        var ok := OpenFile(d);
        if ok {
          return true;
        }
      }
      return false;
    }

    /** One turn of the reading loop. */
    method Turn(d: Dir) returns (out: seq<Bytes>, more: bool)
      requires Inodes(d)
      modifies `isOpen, `currentFile, `currentInode, `offset, `doneInodes, `lag
      ensures Iterate(old(State()), d, from) == DirReader.Turn(State(), out, more)
      ensures old(LagCurrent(d)) ==> LagCurrent(d)
    {
      hide DirReader.ReadLine, Advance, Inodes;
      var line, n, eof := ReadLine(d);
      if n > 0 {
        offset := offset + n;
        UpdateLag(d);
      }
      out := if line != [] then [line] else [];
      if eof {
        more := AdvanceFile(d);
      } else {
        more := true;
      }
    }

    /** One window of reading: up to `size` records, ended early by the deadline or when there
        is no file to advance to. */
    method ReadBatch(d: Dir, size: nat, cut: nat -> bool) returns (records: seq<Bytes>)
      requires Inodes(d)
      modifies `isOpen, `currentFile, `currentInode, `offset, `doneInodes, `lag, `readCount
      ensures stopped ==> records == [] && State() == old(State())
      ensures !stopped ==> var b := DirReader.ReadBatch(old(State()), d, from, size, cut, 0);
                           records == b.out && State() == b.r
      ensures readCount == old(readCount) + |records|
      ensures old(LagCurrent(d)) ==> LagCurrent(d)
    {
      hide Iterate, Inodes, NotDone, Rank, Left, LagCurrent, DirReader.ReadBatch, Completes;
      records := [];
      if stopped {
        return;
      }
      ghost var whole := DirReader.ReadBatch(State(), d, from, size, cut, 0);
      CompletesStart(State(), d, from, size, cut);
      var i := 0;
      while |records| < size
        invariant Completes(whole, State(), d, from, size, cut, i, records)
        invariant |records| <= size
        invariant readCount == old(readCount) + |records|
        invariant old(LagCurrent(d)) ==> LagCurrent(d)
        decreases NotDone(State(), d), Rank(State(), d), Left(State(), d)
      {
        if cut(i) {
          break;
        }
        CompletesTurn(whole, State(), d, from, size, cut, i, records);
        var out, more := Turn(d);
        records := records + out;
        readCount := readCount + |out|;
        if !more {
          return;
        }
        i := i + 1;
      }
      CompletesEnd(whole, State(), d, from, size, cut, i, records);
    }

    /** Drops the finished inodes that are no longer in the directory. */
    method PruneStaleInodes(d: Dir)
      modifies `doneInodes
      ensures doneInodes == Prune(old(doneInodes), d)
    {
      var present: set<nat> := {};
      var paths := d.files.Keys;
      while paths != {}
        invariant paths <= d.files.Keys
        invariant present == set p | p in d.files && p !in paths :: d.files[p].inode
      {
        var p :| p in paths;
        present := present + {d.files[p].inode};
        paths := paths - {p};
      }
      var keys := doneInodes.Keys;
      while keys != {}
        invariant keys <= old(doneInodes).Keys
        invariant doneInodes == map n | n in old(doneInodes) && (n in present || n in keys) :: old(doneInodes)[n]
      {
        var n :| n in keys;
        if n !in present {
          doneInodes := doneInodes - {n};
        }
        keys := keys - {n};
      }
    }

    /** `Commit`: prunes, and replaces the state file unless the write fails, which is silent. */
    method Commit(d: Dir, written: bool)
      modifies `lag, `doneInodes, meta
      ensures State() == old(State()).(done := Prune(old(doneInodes), d))
      ensures meta.saved == if written then Some(Save(old(State()), d)) else old(meta.saved)
      ensures LagCurrent(d)
    {
      UpdateLag(d);
      PruneStaleInodes(d);
      if written {
        meta.saved := Some(Saved(currentFile, offset, doneInodes));
      }
    }

    method Close(d: Dir, written: bool)
      modifies `lag, `doneInodes, `stopped, `isOpen, meta
      ensures stopped && State() == old(State()).(done := Prune(old(doneInodes), d), open := false)
      ensures meta.saved == if written then Some(Save(old(State()), d)) else old(meta.saved)
    {
      stopped := true;
      Commit(d, written);
      isOpen := false;
    }
  }
}
