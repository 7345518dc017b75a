/** A reader that switches to another file marks the one it leaves as done.  What is appended to
    that file later is read only if the reader happens to start over at it: of two files written
    at the same time, one loses everything after the first switch. */
module DirSwitch {
  import opened DirReader
  import opened DirStream
  import opened DirRestart

  /** What happens after the switch: a turn of the reading loop, a commit, or a commit with a
      restart of the agent, each on the directory as it is then. */
  datatype Act = TurnOn(d: Dir) | CommitOn(d: Dir) | RestartOn(d: Dir)

  ghost function Do(r: Reader, act: Act, from: Start): Reader {
    match act
    case TurnOn(d) => Iterate(r, d, from).r
    case CommitOn(d) => r.(done := Prune(r.done, d))
    case RestartOn(d) => Load(Save(r, d))
  }

  ghost function DoAll(r: Reader, acts: seq<Act>, from: Start): Reader
    decreases |acts|
  {
    if acts == [] then r else DoAll(Do(r, acts[0], from), acts[1..], from)
  }

  /** In every snapshot `f` is listed and names the inode `n`; its content is free to grow. */
  ghost predicate Stays(acts: seq<Act>, f: Path, n: nat) {
    forall k :: 0 <= k < |acts| ==> Holds(acts[k].d, f, n)
  }

  ghost predicate Holds(d: Dir, f: Path, n: nat) {
    Healthy(d) && f in d.order && d.files[f].inode == n
  }

  /** The reader has left `f`. */
  ghost predicate Away(r: Reader, f: Path, n: nat) {
    n in r.done && r.file != f && (r.open ==> r.inode != n)
  }

  /** The turn takes bytes out of `f`. */
  ghost predicate TakesFrom(r: Reader, act: Act, from: Start, f: Path) {
    act.TurnOn? && ReadLine(r, act.d, from).raw != [] && ReadLine(r, act.d, from).r.file == f
  }

  /** The turn starts over at `f`. */
  ghost predicate StartsOverAt(r: Reader, act: Act, from: Start, f: Path) {
    act.TurnOn? && !r.open && r.file == "" && act.d.order != [] && StartFile(act.d, from) == f
  }

  lemma {:induction false} AdvanceAway(r: Reader, d: Dir, i: nat, f: Path, n: nat)
    requires Holds(d, f, n) && Away(r, f, n) && i <= |d.order|
    ensures Away(Advance(r, d, i).0, f, n)
    decreases |d.order| - i
  {
    if i < |d.order| {
      var p := d.order[i];
      assert CanOpen(d, p);
      if d.files[p].inode in r.done || p == r.file {
        AdvanceAway(r, d, i + 1, f, n);
      }
    }
  }

  /** A turn that does not start over at `f` takes nothing out of it and does not return to it. */
  lemma LineAway(r: Reader, act: Act, from: Start, f: Path, n: nat)
    requires Holds(act.d, f, n) && Away(r, f, n) && act.TurnOn? && !StartsOverAt(r, act, from, f)
    ensures Away(ReadLine(r, act.d, from).r, f, n) && !TakesFrom(r, act, from, f)
  {
    hide NextChunk;
    assert f != "";
  }

  lemma ActAway(r: Reader, act: Act, from: Start, f: Path, n: nat)
    requires Holds(act.d, f, n) && Away(r, f, n) && !StartsOverAt(r, act, from, f)
    ensures Away(Do(r, act, from), f, n) && !TakesFrom(r, act, from, f)
  {
    if act.TurnOn? {
      LineAway(r, act, from, f, n);
      hide ReadLine, Advance, Holds;
      var l := ReadLine(r, act.d, from);
      AdvanceAway(l.r.(offset := l.r.offset + |l.raw|), act.d, 0, f, n);
    } else {
      assert n in PresentInodes(act.d);
    }
  }

  /** A turn that starts over at `f`, and not at its end, takes bytes out of it. */
  lemma StartingTakes(r: Reader, act: Act, from: Start, f: Path, n: nat)
    requires Holds(act.d, f, n) && StartsOverAt(r, act, from, f) && from.Oldest? && Content(act.d, f) != []
    ensures TakesFrom(r, act, from, f)
  {
  }

  lemma {:induction false} AwayForGood(r: Reader, acts: seq<Act>, from: Start, f: Path, n: nat, k: nat)
    requires Stays(acts, f, n) && Away(r, f, n) && k < |acts|
    requires forall i :: 0 <= i <= k ==> !StartsOverAt(DoAll(r, acts[..i], from), acts[i], from, f)
    ensures !TakesFrom(DoAll(r, acts[..k], from), acts[k], from, f)
    decreases k
  {
    hide Away, StartsOverAt, TakesFrom, Do;
    assert acts[..0] == [];
    ActAway(r, acts[0], from, f, n);
    if k > 0 {
      var r1, rest := Do(r, acts[0], from), acts[1..];
      forall i | 0 <= i < |rest|
        ensures rest[i] == acts[i + 1] && DoAll(r, acts[..i + 1], from) == DoAll(r1, rest[..i], from)
      {
        assert acts[..i + 1][1..] == rest[..i];
      }
      AwayForGood(r1, rest, from, f, n, k - 1);
    }
  }

  /** The reader is at the end of `f` and moves on to another file. */
  ghost predicate Leaves(r: Reader, d: Dir, from: Start) {
    && r.open && Settled(r, d) && r.file in d.order && NextChunk(r, d) == [] && Iterate(r, d, from).more
  }

  lemma {:induction false} AdvanceLeaves(r: Reader, d: Dir, i: nat)
    requires Healthy(d) && Settled(r, d) && r.open && r.file in d.order && i <= |d.order| && Advance(r, d, i).1
    ensures Away(Advance(r, d, i).0, r.file, r.inode) && Advance(r, d, i).0.done == r.done[r.inode := r.offset]
    decreases |d.order| - i
  {
    var p := d.order[i];
    assert CanOpen(d, p);
    if d.files[p].inode in r.done || p == r.file {
      AdvanceLeaves(r, d, i + 1);
    }
  }

  lemma LeavingMarks(r: Reader, d: Dir, from: Start)
    requires Healthy(d) && Leaves(r, d, from)
    ensures Away(Iterate(r, d, from).r, r.file, r.inode)
    ensures Iterate(r, d, from).r.done == r.done[r.inode := r.offset]
  {
    hide Advance, NextChunk;
    assert r.(offset := r.offset + 0) == r;
    AdvanceLeaves(r, d, 0);
  }

  /** After the reader has left `f` at the offset where it then ended, over every sequence of turns,
      commits and restarts on a directory in which `f` stays listed, however it grows: bytes of
      `f` are read if and only if some turn starts over at `f`. */
  lemma {:induction false} LeftForGood(r: Reader, d: Dir, acts: seq<Act>)
    requires Healthy(d) && Leaves(r, d, Oldest) && Stays(acts, r.file, r.inode)
    requires forall k :: 0 <= k < |acts| ==> Content(acts[k].d, r.file) != []
    ensures var r', f := Iterate(r, d, Oldest).r, r.file;
            && r'.done == r.done[r.inode := r.offset]
            && ((exists k :: 0 <= k < |acts| && TakesFrom(DoAll(r', acts[..k], Oldest), acts[k], Oldest, f)) <==>
                (exists k :: 0 <= k < |acts| && StartsOverAt(DoAll(r', acts[..k], Oldest), acts[k], Oldest, f)))
  {
    LeavingMarks(r, d, Oldest);
    var r', f := Iterate(r, d, Oldest).r, r.file;
    hide Iterate, Away, StartsOverAt, TakesFrom, DoAll, Holds, Content, Leaves;
    if k :| 0 <= k < |acts| && StartsOverAt(DoAll(r', acts[..k], Oldest), acts[k], Oldest, f) {
      StartingTakes(DoAll(r', acts[..k], Oldest), acts[k], Oldest, f, r.inode);
    } else {
      forall k | 0 <= k < |acts| ensures !TakesFrom(DoAll(r', acts[..k], Oldest), acts[k], Oldest, f) {
        AwayForGood(r', acts, Oldest, f, r.inode, k);
      }
    }
  }

  /** For a reader that starts at the newest file, one direction: it reads nothing more of `f`
      unless some turn starts over at it, and then from its end at that time. */
  lemma {:induction false} LeftForGoodNewest(r: Reader, d: Dir, acts: seq<Act>, k: nat)
    requires Healthy(d) && Leaves(r, d, Newest) && Stays(acts, r.file, r.inode) && k < |acts|
    requires TakesFrom(DoAll(Iterate(r, d, Newest).r, acts[..k], Newest), acts[k], Newest, r.file)
    ensures exists i :: 0 <= i < k && StartsOverAt(DoAll(Iterate(r, d, Newest).r, acts[..i], Newest), acts[i], Newest, r.file)
  {
    LeavingMarks(r, d, Newest);
    var r', f := Iterate(r, d, Newest).r, r.file;
    hide Iterate, Away, StartsOverAt, TakesFrom, DoAll, Holds, Leaves;
    if forall i :: 0 <= i < k ==> !StartsOverAt(DoAll(r', acts[..i], Newest), acts[i], Newest, f) {
      StartingAtEnd(DoAll(r', acts[..k], Newest), acts[k], f, r.inode);
      AwayForGood(r', acts, Newest, f, r.inode, k);
    }
  }

  lemma StartingAtEnd(r: Reader, act: Act, f: Path, n: nat)
    requires Holds(act.d, f, n)
    ensures StartsOverAt(r, act, Newest, f) ==> !TakesFrom(r, act, Newest, f)
  {
  }
}
