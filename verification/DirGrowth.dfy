/** A file grows while it is read: no byte is lost or repeated, and the records are its lines
    exactly when no line is read in pieces. */
module DirGrowth {
  import opened Basics
  import opened Lines
  import opened DirReader
  import opened DirStream

  // ---------------------------------------------------------------- a growing file

  function Concat(chunks: seq<Bytes>): Bytes {
    if chunks == [] then [] else Concat(chunks[..|chunks| - 1]) + chunks[|chunks| - 1]
  }

  function EmitChunks(chunks: seq<Bytes>): seq<Bytes> {
    if chunks == [] then [] else EmitChunks(chunks[..|chunks| - 1]) + Emit(Strip(chunks[|chunks| - 1]))
  }

  /** Snapshots of a directory in which `f` is only appended to. */
  ghost predicate Growing(f: Path, ds: seq<Dir>) {
    && f != ""
    && (forall k :: 0 <= k < |ds| ==> CanOpen(ds[k], f))
    && (forall j, k :: 0 <= j < k < |ds| ==>
          ds[j].files[f].inode == ds[k].files[f].inode && ds[j].files[f].content <= ds[k].files[f].content)
  }

  /** One read in each snapshot in turn: the reader afterwards and the raw chunks consumed. */
  ghost function Follow(r: Reader, ds: seq<Dir>, from: Start): (Reader, seq<Bytes>)
    decreases |ds|
  {
    if ds == [] then (r, [])
    else
      var (r1, chunks) := Follow(r, ds[..|ds| - 1], from);
      var l := ReadLine(r1, ds[|ds| - 1], from);
      (l.r.(offset := l.r.offset + |l.raw|), if l.raw == [] then chunks else chunks + [l.raw])
  }

  ghost predicate LFOnlyAtEnd(c: Bytes) {
    c != [] && NoLF(c[..|c| - 1])
  }

  /** What holds after every read: the file is still open and unrotated, and the chunks are
      exactly the bytes passed over; `whole` says that the writer appends whole lines. */
  ghost predicate Conserved(r: Reader, r': Reader, chunks: seq<Bytes>, s: Bytes, whole: bool) {
    && r' == r.(offset := r'.offset)
    && 0 <= r.offset <= r'.offset <= |s|
    && Concat(chunks) == s[r.offset..r'.offset]
    && (forall k :: 0 <= k < |chunks| ==> LFOnlyAtEnd(chunks[k]) && (whole ==> WholeLines(chunks[k])))
  }

  /** One read of an unrotated file takes the bytes up to the next newline or the end. */
  lemma ReadGrown(r: Reader, d: Dir, from: Start)
    requires r.open && r.file != "" && CanOpen(d, r.file) && d.files[r.file].inode == r.inode
    requires 0 <= r.offset <= |Content(d, r.file)|
    ensures var l := ReadLine(r, d, from);
            var s := Content(d, r.file);
            && !Rotated(r, d) && l.r == r
            && r.offset + |l.raw| <= |s| && l.raw == s[r.offset..r.offset + |l.raw|]
            && (l.raw != [] ==> LFOnlyAtEnd(l.raw))
            && (l.raw != [] && WholeLines(s) ==> WholeLines(l.raw))
  {
    var s := Content(d, r.file);
    if r.offset < |s| {
      var t := s[r.offset..];
      var n := ChunkLen(t);
      assert t[..n] == s[r.offset..r.offset + n];
      assert n < |t| ==> t[n - 1] == LF;
      assert n == |t| ==> t[n - 1] == s[|s| - 1];
    }
  }

  lemma Slices(s: Bytes, t: Bytes, a: nat, b: nat, c: nat)
    requires s <= t && a <= b <= |s| && b <= c <= |t|
    ensures s[a..b] == t[a..b] && t[a..b] + t[b..c] == t[a..c]
  {
  }

  lemma ConserveChunk(r: Reader, r1: Reader, chunks: seq<Bytes>, s: Bytes, t: Bytes, c: Bytes, whole: bool)
    requires Conserved(r, r1, chunks, s, whole) && s <= t
    requires r1.offset + |c| <= |t| && c == t[r1.offset..r1.offset + |c|]
    requires LFOnlyAtEnd(c) && (whole ==> WholeLines(c))
    ensures Conserved(r, r1.(offset := r1.offset + |c|), chunks + [c], t, whole)
  {
    hide Concat, LFOnlyAtEnd, WholeLines;
    var more, end := chunks + [c], r1.offset + |c|;
    Slices(s, t, r.offset, r1.offset, end);
    ConcatSnoc(chunks, c);
    assert Concat(more) == t[r.offset..end];
    assert forall k :: 0 <= k < |more| ==> more[k] == if k < |chunks| then chunks[k] else c;
  }

  /** One more read, after the file grew from `s` to what `d` holds. */
  lemma ConserveStep(r: Reader, r1: Reader, chunks: seq<Bytes>, s: Bytes, d: Dir, from: Start, whole: bool)
    requires Conserved(r, r1, chunks, s, whole)
    requires r.open && r.file != "" && CanOpen(d, r.file) && d.files[r.file].inode == r.inode
    requires s <= Content(d, r.file) && (whole ==> WholeLines(Content(d, r.file)))
    ensures var l := ReadLine(r1, d, from);
            Conserved(r, l.r.(offset := l.r.offset + |l.raw|), if l.raw == [] then chunks else chunks + [l.raw],
                      Content(d, r.file), whole)
  {
    hide Concat, ReadLine, LFOnlyAtEnd, WholeLines, Content;
    ReadGrown(r1, d, from);
    var l := ReadLine(r1, d, from);
    var t := Content(d, r.file);
    if l.raw == [] {
      Slices(s, t, r.offset, r1.offset, r1.offset);
    } else {
      ConserveChunk(r, r1, chunks, s, t, l.raw, whole);
    }
  }

  lemma ConserveNone(r: Reader, s: Bytes, whole: bool)
    requires 0 <= r.offset <= |s|
    ensures Conserved(r, r, [], s, whole)
  {
  }

  /** `r` has the growing file open at a position inside it. */
  ghost predicate OnGrowing(r: Reader, ds: seq<Dir>, whole: bool) {
    && ds != [] && Growing(r.file, ds)
    && r.open && r.inode == ds[0].files[r.file].inode
    && 0 <= r.offset <= |Content(ds[0], r.file)|
    && (whole ==> forall k :: 0 <= k < |ds| ==> WholeLines(Content(ds[k], r.file)))
  }

  lemma OnGrowingPrefix(r: Reader, ds: seq<Dir>, whole: bool)
    requires OnGrowing(r, ds, whole)
    ensures var n := |ds| - 1;
            && ds != [] && r.open && r.file != "" && CanOpen(ds[n], r.file)
            && ds[n].files[r.file].inode == r.inode
            && (whole ==> WholeLines(Content(ds[n], r.file)))
            && (if n > 0 then OnGrowing(r, ds[..n], whole) && Content(ds[n - 1], r.file) <= Content(ds[n], r.file)
                else 0 <= r.offset <= |Content(ds[0], r.file)|)
  {
  }

  /** Byte conservation: over every interleaving of appends and reads, the chunks consumed since
      opening concatenate to the file's bytes from the start offset to the current one, no
      rotation is ever reported, and the reader never leaves the file. */
  lemma {:induction false} ChunksConserve(r: Reader, ds: seq<Dir>, from: Start, whole: bool)
    requires ds != [] && OnGrowing(r, ds, whole)
    ensures var (r', chunks) := Follow(r, ds, from);
            Conserved(r, r', chunks, Content(ds[|ds| - 1], r.file), whole)
    decreases |ds|
  {
    hide OnGrowing, Conserved, Content, ReadLine, WholeLines;
    OnGrowingPrefix(r, ds, whole);
    var n := |ds| - 1;
    var (r1, chunks) := Follow(r, ds[..n], from);
    var s := Content(ds[if n > 0 then n - 1 else 0], r.file);
    if n == 0 {
      ConserveNone(r, s, whole);
    } else {
      ChunksConserve(r, ds[..n], from, whole);
    }
    ConserveStep(r, r1, chunks, s, ds[n], from, whole);
  }

  lemma ConcatSnoc(chunks: seq<Bytes>, c: Bytes)
    ensures Concat(chunks + [c]) == Concat(chunks) + c
    ensures EmitChunks(chunks + [c]) == EmitChunks(chunks) + Emit(Strip(c))
  {
    assert (chunks + [c])[..|chunks|] == chunks;
  }

  /** The chunks are cut exactly where the records are, when each ends a line. */
  lemma {:induction false} WholeChunks(chunks: seq<Bytes>)
    requires forall k :: 0 <= k < |chunks| ==> LFOnlyAtEnd(chunks[k]) && WholeLines(chunks[k])
    ensures WholeLines(Concat(chunks)) && EmitChunks(chunks) == Records(Concat(chunks))
    decreases |chunks|
  {
    if chunks != [] {
      var n := |chunks| - 1;
      WholeChunks(chunks[..n]);
      RecordsSplit(Concat(chunks[..n]), chunks[n]);
      OneChunk(chunks[n]);
    }
  }

  lemma OneChunk(c: Bytes)
    requires LFOnlyAtEnd(c)
    ensures Records(c) == Emit(Strip(c))
  {
    var front := c[..|c| - 1];
    assert forall i :: 0 <= i < |front| ==> front[i] == c[i];
    assert ChunkLen(c) == |c|;
    assert c[..|c|] == c && c[|c|..] == [];
    RecordsUnfold(c);
  }

  /** If the writer appends whole lines, the records are exactly the non-empty lines of the
      bytes passed over. */
  lemma {:induction false} WholeLineWriter(r: Reader, ds: seq<Dir>, from: Start)
    requires ds != [] && OnGrowing(r, ds, true)
    ensures var (r', chunks) := Follow(r, ds, from);
            var s := Content(ds[|ds| - 1], r.file);
            0 <= r.offset <= r'.offset <= |s| && EmitChunks(chunks) == NonEmptyLines(s[r.offset..r'.offset])
  {
    ChunksConserve(r, ds, from, true);
    hide Follow, Growing, Records, NonEmptyLines, Concat, EmitChunks;
    var chunks := Follow(r, ds, from).1;
    WholeChunks(chunks);
    RecordsAreLines(Concat(chunks));
  }

  // ---------------------------------------------------------------- lines read in pieces

  /** Nothing but line ends. */
  ghost predicate Blank(c: Bytes) {
    forall i :: 0 <= i < |c| ==> c[i] == LF || c[i] == CR
  }

  lemma {:induction false} StripBlank(c: Bytes)
    ensures Strip(c) == [] <==> Blank(c)
    decreases |c|
  {
    if c != [] && (c[|c| - 1] == LF || c[|c| - 1] == CR) {
      StripBlank(c[..|c| - 1]);
      assert forall i :: 0 <= i < |c| - 1 ==> c[i] == c[..|c| - 1][i];
    }
  }

  lemma {:induction false} StripAppend(p: Bytes, c: Bytes)
    ensures Strip(p + c) == if Strip(c) == [] then Strip(p) else p + Strip(c)
    decreases |c|
  {
    if c == [] {
      assert p + c == p;
    } else if c[|c| - 1] == LF || c[|c| - 1] == CR {
      assert (p + c)[..|p + c| - 1] == p + c[..|c| - 1];
      StripAppend(p, c[..|c| - 1]);
    }
  }

  /** Where the last line of `s` begins. */
  ghost function LastLine(s: Bytes): (n: nat)
    ensures n <= |s| && WholeLines(s[..n]) && NoLF(s[n..])
    ensures n < |s| <==> !WholeLines(s)
  {
    if WholeLines(s) then |s|
    else
      var n := LastLine(s[..|s| - 1]);
      assert s[..|s| - 1][..n] == s[..n];
      assert forall i :: 0 <= i < |s[n..]| ==> s[n..][i] == if i < |s| - 1 - n then s[..|s| - 1][n..][i] else s[|s| - 1];
      n
  }

  lemma Cancel(a: seq<Bytes>, b: seq<Bytes>, x: seq<Bytes>)
    ensures a + x == b + x <==> a == b
  {
    assert (a + x)[..|a|] == a && (b + x)[..|b|] == b;
    assert |a + x| == |a| + |x| && |b + x| == |b| + |x|;
  }

  lemma DifferentLast(a: seq<Bytes>, b: seq<Bytes>, x: Bytes, y: Bytes)
    requires x != y
    ensures a + [x] != b + [y]
  {
    assert (a + [x])[|a + [x]| - 1] == x && (b + [y])[|b + [y]| - 1] == y;
  }

  lemma Extended(p: Bytes, c: Bytes)
    requires p != [] && NoLF(p) && LFOnlyAtEnd(c)
    ensures LFOnlyAtEnd(p) && LFOnlyAtEnd(p + c)
  {
    assert (p + c)[..|p + c| - 1] == p + c[..|c| - 1];
  }

  lemma BrokenParts(w: Bytes, p: Bytes, c: Bytes)
    requires WholeLines(w) && p != [] && NoLF(p) && LFOnlyAtEnd(c)
    ensures Records(w + p) == Records(w) + Emit(Strip(p))
    ensures Records(w + (p + c)) == Records(w) + Emit(Strip(p + c))
  {
    hide Records, Strip, Emit, WholeLines, LFOnlyAtEnd, NoLF;
    Extended(p, c);
    OneChunk(p);
    OneChunk(p + c);
    RecordsSplit(w, p);
    RecordsSplit(w, p + c);
  }

  /** The records of `s` and of `s` with one more chunk, when `s` ends inside a line. */
  lemma BrokenLine(s: Bytes, c: Bytes)
    requires !WholeLines(s) && LFOnlyAtEnd(c)
    ensures var n := LastLine(s);
            && n < |s|
            && Records(s) == Records(s[..n]) + Emit(Strip(s[n..]))
            && Records(s + c) == Records(s[..n]) + Emit(Strip(s[n..] + c))
  {
    hide Records, Strip, Emit, WholeLines, LFOnlyAtEnd, NoLF, LastLine;
    var n := LastLine(s);
    var w, p := s[..n], s[n..];
    BrokenParts(w, p, c);
    Assoc(w, p, c);
    assert w + p == s;
  }

  /** One more chunk keeps the records emitted equal to the lines of the bytes passed over if
      and only if they were equal before and the chunk does not continue a line, unless it holds
      only line ends. */
  lemma {:induction false} PieceExact(s: Bytes, c: Bytes, e: seq<Bytes>)
    requires LFOnlyAtEnd(c)
    ensures e + Emit(Strip(c)) == Records(s + c) <==> e == Records(s) && (WholeLines(s) || Blank(c))
  {
    hide Records, Strip, WholeLines, LFOnlyAtEnd, Blank, LastLine;
    StripBlank(c);
    if WholeLines(s) {
      RecordsSplit(s, c);
      OneChunk(c);
      Cancel(e, Records(s), Emit(Strip(c)));
    } else {
      BrokenLine(s, c);
      var n := LastLine(s);
      StripAppend(s[n..], c);
      if Strip(c) == [] {
        assert e + [] == e;
      } else {
        DifferentLast(e, Records(s[..n]), Strip(c), s[n..] + Strip(c));
      }
    }
  }

  /** The reader's position after one read at each of the times in `ds`, as a function of what
      the file held at those times. */
  ghost function At(start: nat, f: Path, ds: seq<Dir>): nat
    decreases |ds|
  {
    if ds == [] then start
    else
      var p, s := At(start, f, ds[..|ds| - 1]), Content(ds[|ds| - 1], f);
      if p < |s| then p + ChunkLen(s[p..]) else p
  }

  /** A read at `p` of a file that holds `s` does not continue a line, unless what it adds to
      the line is only its end. */
  ghost predicate AtLineStart(start: nat, p: nat, s: Bytes) {
    start < p < |s| && s[p - 1] != LF ==> Blank(s[p..][..ChunkLen(s[p..])])
  }

  ghost predicate NoLineInPieces(start: nat, f: Path, ds: seq<Dir>) {
    forall k :: 0 <= k < |ds| ==> AtLineStart(start, At(start, f, ds[..k]), Content(ds[k], f))
  }

  lemma NoLineSnoc(start: nat, f: Path, ds: seq<Dir>)
    requires ds != []
    ensures var n := |ds| - 1;
            NoLineInPieces(start, f, ds) <==>
            NoLineInPieces(start, f, ds[..n]) && AtLineStart(start, At(start, f, ds[..n]), Content(ds[n], f))
  {
    hide At, AtLineStart, Content;
    var n := |ds| - 1;
    assert forall k :: 0 <= k < n ==> ds[..n][..k] == ds[..k] && ds[..n][k] == ds[k];
  }

  lemma NextPiece(start: nat, p: nat, s: Bytes, e: seq<Bytes>)
    requires start <= p < |s|
    ensures var c := s[p..][..ChunkLen(s[p..])];
            && LFOnlyAtEnd(c) && p + |c| <= |s|
            && (e + Emit(Strip(c)) == Records(s[start..p + |c|]) <==>
                e == Records(s[start..p]) && AtLineStart(start, p, s))
  {
    hide Records, Strip, Emit, Blank, ChunkLen;
    var c := s[p..][..ChunkLen(s[p..])];
    assert s[start..p] + c == s[start..p + |c|];
    assert LFOnlyAtEnd(c);
    assert WholeLines(s[start..p]) <==> p == start || s[p - 1] == LF;
    PieceExact(s[start..p], c, e);
  }

  lemma NextRead(r: Reader, d: Dir, from: Start)
    requires r.open && r.file != "" && CanOpen(d, r.file) && d.files[r.file].inode == r.inode
    requires 0 <= r.offset <= |Content(d, r.file)|
    ensures var s, p := Content(d, r.file), r.offset;
            ReadLine(r, d, from).r == r && ReadLine(r, d, from).raw == NextChunk(r, d)
            && NextChunk(r, d) == Piece(s, p)
  {
    hide ChunkLen;
  }

  /** The next piece of `t` that a read at `p` takes. */
  ghost function Piece(t: Bytes, p: nat): Bytes {
    if p < |t| then t[p..][..ChunkLen(t[p..])] else []
  }

  /** The non-empty lines of what was passed over between two positions. */
  ghost function Passed(t: Bytes, start: nat, p: nat): seq<Bytes>
    requires start <= p <= |t|
  {
    NonEmptyLines(t[start..p])
  }

  /** `r1` has followed the snapshots `ds` from `r` on and read `chunks`; the file now holds `t`. */
  ghost predicate WholeSoFar(r: Reader, r1: Reader, chunks: seq<Bytes>, ds: seq<Dir>, t: Bytes) {
    && 0 <= r.offset <= r1.offset <= |t| && r1 == r.(offset := At(r.offset, r.file, ds))
    && (EmitChunks(chunks) == Passed(t, r.offset, r1.offset) <==> NoLineInPieces(r.offset, r.file, ds))
  }

  lemma WholeStart(r: Reader, t: Bytes)
    requires 0 <= r.offset <= |t|
    ensures WholeSoFar(r, r, [], [], t)
  {
    hide NonEmptyLines;
    NoLineNone(r.offset, r.file);
    assert t[r.offset..r.offset] == [];
  }

  lemma WholeGrows(r: Reader, r1: Reader, chunks: seq<Bytes>, ds: seq<Dir>, s: Bytes, t: Bytes)
    requires WholeSoFar(r, r1, chunks, ds, s) && s <= t
    ensures WholeSoFar(r, r1, chunks, ds, t)
  {
    hide At, EmitChunks, NonEmptyLines, NoLineInPieces;
    Slices(s, t, r.offset, r1.offset, r1.offset);
  }

  lemma WholeStep(r: Reader, r1: Reader, chunks: seq<Bytes>, ds: seq<Dir>, from: Start)
    requires ds != [] && WholeSoFar(r, r1, chunks, ds[..|ds| - 1], Content(ds[|ds| - 1], r.file))
    requires r.open && r.file != "" && CanOpen(ds[|ds| - 1], r.file) && ds[|ds| - 1].files[r.file].inode == r.inode
    ensures var d := ds[|ds| - 1];
            var l := ReadLine(r1, d, from);
            WholeSoFar(r, l.r.(offset := l.r.offset + |l.raw|), if l.raw == [] then chunks else chunks + [l.raw], ds,
                       Content(d, r.file))
  {
    hide At, ReadLine, Content, CanOpen, EmitChunks, Passed, NoLineInPieces, NextChunk, Piece, Strip;
    var d := ds[|ds| - 1];
    NextRead(r1, d, from);
    LinesStep(r.offset, r.file, ds, EmitChunks(chunks));
    ConcatSnoc(chunks, NextChunk(r1, d));
    EmitNothing(EmitChunks(chunks));
  }

  lemma FollowLast(r: Reader, ds: seq<Dir>, from: Start)
    requires ds != []
    ensures var (r1, chunks) := Follow(r, ds[..|ds| - 1], from);
            var l := ReadLine(r1, ds[|ds| - 1], from);
            Follow(r, ds, from) == (l.r.(offset := l.r.offset + |l.raw|), if l.raw == [] then chunks else chunks + [l.raw])
  {
    hide ReadLine;
  }

  lemma {:induction false} FollowWhole(r: Reader, ds: seq<Dir>, from: Start)
    requires ds != [] && OnGrowing(r, ds, false)
    ensures var (r1, chunks) := Follow(r, ds, from);
            WholeSoFar(r, r1, chunks, ds, Content(ds[|ds| - 1], r.file))
    decreases |ds|
  {
    hide OnGrowing, Content, ReadLine, WholeSoFar, Follow, CanOpen;
    OnGrowingPrefix(r, ds, false);
    FollowLast(r, ds, from);
    var n := |ds| - 1;
    var t := Content(ds[n], r.file);
    if n == 0 {
      FollowNone(r, ds[..0], from);
      WholeStart(r, t);
      WholeStep(r, r, [], ds, from);
    } else {
      FollowWhole(r, ds[..n], from);
      var (r1, chunks) := Follow(r, ds[..n], from);
      WholeGrows(r, r1, chunks, ds[..n], Content(ds[n - 1], r.file), t);
      WholeStep(r, r1, chunks, ds, from);
    }
  }

  lemma FollowNone(r: Reader, ds: seq<Dir>, from: Start)
    requires ds == []
    ensures Follow(r, ds, from) == (r, [])
  {
  }

  /** The exact condition for lines to come out whole, over every interleaving of appends and
      reads: the records emitted are the non-empty lines of the bytes passed over if and only if
      no read starts inside a line, except to take the rest of its line end. */
  lemma {:induction false} LinesWhole(r: Reader, ds: seq<Dir>, from: Start)
    requires ds != [] && OnGrowing(r, ds, false)
    ensures var (r', chunks) := Follow(r, ds, from);
            var s := Content(ds[|ds| - 1], r.file);
            && r' == r.(offset := At(r.offset, r.file, ds)) && r.offset <= r'.offset <= |s|
            && (EmitChunks(chunks) == NonEmptyLines(s[r.offset..r'.offset]) <==> NoLineInPieces(r.offset, r.file, ds))
  {
    hide Follow, At, Content, EmitChunks, NonEmptyLines, NoLineInPieces;
    FollowWhole(r, ds, from);
  }

  /** The step of the induction: the read of `ds`'s last snapshot. */
  lemma LinesStep(start: nat, f: Path, ds: seq<Dir>, e: seq<Bytes>)
    requires ds != []
    requires var n := |ds| - 1;
             var p, t := At(start, f, ds[..n]), Content(ds[n], f);
             start <= p <= |t| && (e == Passed(t, start, p) <==> NoLineInPieces(start, f, ds[..n]))
    ensures var n := |ds| - 1;
            var p, p', t := At(start, f, ds[..n]), At(start, f, ds), Content(ds[n], f);
            && p' == p + |Piece(t, p)| <= |t|
            && (e + Emit(Strip(Piece(t, p))) == Passed(t, start, p') <==> NoLineInPieces(start, f, ds))
  {
    hide Content, Passed, NoLineInPieces, AtLineStart, Piece, Strip, Emit, At;
    NoLineSnoc(start, f, ds);
    AtLast(start, f, ds);
    var n := |ds| - 1;
    LinesPiece(start, At(start, f, ds[..n]), Content(ds[n], f), e);
  }

  lemma AtLast(start: nat, f: Path, ds: seq<Dir>)
    requires ds != []
    ensures var n := |ds| - 1;
            var p, t := At(start, f, ds[..n]), Content(ds[n], f);
            At(start, f, ds) == p + |Piece(t, p)|
  {
    hide Content;
  }

  /** The same for one read at `p` of a file that holds `t`. */
  lemma LinesPiece(start: nat, p: nat, t: Bytes, e: seq<Bytes>)
    requires start <= p <= |t|
    ensures var c := Piece(t, p);
            && p + |c| <= |t|
            && (e + Emit(Strip(c)) == Passed(t, start, p + |c|) <==> e == Passed(t, start, p) && AtLineStart(start, p, t))
  {
    hide NonEmptyLines, Records, AtLineStart, Strip, Emit, ChunkLen;
    RecordsAreLines(t[start..p]);
    if p < |t| {
      RecordsAreLines(t[start..p + |Piece(t, p)|]);
      NextPiece(start, p, t, e);
    } else {
      AtEnd(start, p, t);
      EmitNothing(e);
    }
  }

  lemma EmitNothing(e: seq<Bytes>)
    ensures e + Emit(Strip([])) == e
  {
  }

  lemma NoLineNone(start: nat, f: Path)
    ensures NoLineInPieces(start, f, []) && At(start, f, []) == start && EmitChunks([]) == NonEmptyLines([])
  {
  }

  lemma AtEnd(start: nat, p: nat, s: Bytes)
    requires p >= |s|
    ensures AtLineStart(start, p, s)
  {
  }

  // ---------------------------------------------------------------- a line in pieces

  ghost predicate Clean(s: Bytes) {
    s != [] && forall i :: 0 <= i < |s| ==> s[i] != LF && s[i] != CR
  }

  lemma CleanChunk(s: Bytes)
    requires Clean(s)
    ensures ChunkLen(s) == |s| && ChunkLen(s + [LF]) == |s| + 1
    ensures Strip(s) == s && Strip(s + [LF]) == s
  {
    hide ChunkLen;
    assert forall i :: 0 <= i < |s| ==> (s + [LF])[i] == s[i];
    assert Strip(s) == s;
    assert (s + [LF])[..|s|] == s;
  }

  lemma FollowTwo(r: Reader, d: Dir, e: Dir, from: Start, b: Bytes, c: Bytes)
    requires b != [] && ReadLine(r, d, from) == Line(r, b, false)
    requires c != [] && var r1 := r.(offset := r.offset + |b|); ReadLine(r1, e, from) == Line(r1, c, false)
    ensures Follow(r, [d, e], from).1 == [b, c]
  {
    hide ReadLine;
    var ds := [d, e];
    assert ds[..1] == [d] && [d][..0] == [];
    assert Follow(r, [d], from).1 == [] + [b];
  }

  lemma SameFileTwice(r: Reader, before: Dir, after: Dir)
    requires OnGrowing(r, [before, after], false)
    ensures r.open && r.file != ""
    ensures CanOpen(before, r.file) && before.files[r.file].inode == r.inode
    ensures CanOpen(after, r.file) && after.files[r.file].inode == r.inode
  {
    var ds := [before, after];
    assert ds[..1] == [before];
    hide OnGrowing;
    OnGrowingPrefix(r, ds, false);
    OnGrowingPrefix(r, [before], false);
  }

  lemma TwoChunks(r: Reader, before: Dir, after: Dir, from: Start, x: Bytes, y: Bytes)
    requires OnGrowing(r, [before, after], false) && r.offset == 0 && Clean(x) && Clean(y)
    requires Content(before, r.file) == x && Content(after, r.file) == x + (y + [LF])
    ensures Follow(r, [before, after], from).1 == [x, y + [LF]]
  {
    assert x != [];
    hide ReadLine, OnGrowing, Content, Strip, ChunkLen, Follow, Clean, CanOpen;
    SameFileTwice(r, before, after);
    CleanChunk(x);
    CleanChunk(y);
    FirstPiece(r, before, from, x);
    SecondPiece(r.(offset := |x|), after, from, x, y);
    FollowTwo(r, before, after, from, x, y + [LF]);
  }

  lemma OneLine(s: Bytes)
    requires Clean(s)
    ensures NonEmptyLines(s + [LF]) == [s]
  {
    hide NonEmptyLines, Records, Strip, ChunkLen;
    var line := s + [LF];
    CleanChunk(s);
    RecordsAreLines(line);
    RecordsUnfold(line);
    assert line[..|line|] == line && line[|line|..] == [];
    NoRecords();
  }

  lemma NoRecords()
    ensures Records([]) == [] && EmitChunks([]) == []
  {
  }

  /** Without whole-line appends the previous theorem fails: a line of which `x` is read before
      `y` and the newline are written comes out as two records. */
  lemma {:induction false} PartialLineSplits(r: Reader, before: Dir, after: Dir, from: Start, x: Bytes, y: Bytes)
    requires OnGrowing(r, [before, after], false) && r.offset == 0 && Clean(x) && Clean(y)
    requires Content(before, r.file) == x && Content(after, r.file) == x + (y + [LF])
    ensures EmitChunks(Follow(r, [before, after], from).1) == [x, y]
    ensures NonEmptyLines(Content(after, r.file)) == [x + y]
  {
    hide Follow, OnGrowing, Content, NonEmptyLines, EmitChunks, Strip, ChunkLen;
    TwoChunks(r, before, after, from, x, y);
    CleanChunk(x);
    CleanChunk(y);
    ConcatSnoc([], x);
    ConcatSnoc([x], y + [LF]);
    NoRecords();
    assert [] + [x] == [x] && [x] + [y + [LF]] == [x, y + [LF]];
    OneLine(x + y);
    Assoc(x, y, [LF]);
  }

  lemma FirstPiece(r: Reader, d: Dir, from: Start, x: Bytes)
    requires r.open && r.file != "" && CanOpen(d, r.file) && d.files[r.file].inode == r.inode && r.offset == 0
    requires Content(d, r.file) == x && x != [] && ChunkLen(x) == |x|
    ensures ReadLine(r, d, from) == Line(r, x, false)
  {
    assert x[0..] == x && x[..|x|] == x;
  }

  lemma SecondPiece(r: Reader, d: Dir, from: Start, x: Bytes, y: Bytes)
    requires r.open && r.file != "" && CanOpen(d, r.file) && d.files[r.file].inode == r.inode && r.offset == |x|
    requires Content(d, r.file) == x + (y + [LF]) && ChunkLen(y + [LF]) == |y| + 1
    ensures ReadLine(r, d, from) == Line(r, y + [LF], false)
  {
    var s := x + (y + [LF]);
    assert s[|x|..] == y + [LF] && (y + [LF])[..|y| + 1] == y + [LF];
  }
}
