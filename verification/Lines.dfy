/** How the directory reader cuts a byte stream into records.

    `Records` follows the reader: take the bytes up to and including the next newline (or what
    is left), strip every trailing newline and carriage return, and emit the rest unless it is
    empty.  `NonEmptyLines` is the independent reference: split on newlines, strip carriage
    returns, drop the empty lines. */
module Lines {
  import opened Basics

  newtype Byte = b: int | 0 <= b < 256

  type Bytes = seq<Byte>

  const LF: Byte := 10
  const CR: Byte := 13

  /** Number of bytes that one `ReadString('\n')` returns. */
  function ChunkLen(s: Bytes): (n: nat)
    ensures n <= |s|
    ensures s != [] ==> n > 0
    ensures forall i :: 0 <= i < n - 1 ==> s[i] != LF
    ensures n < |s| ==> s[n - 1] == LF
  {
    if s == [] then 0 else if s[0] == LF then 1 else 1 + ChunkLen(s[1..])
  }

  function Strip(s: Bytes): Bytes {
    if s != [] && (s[|s| - 1] == LF || s[|s| - 1] == CR) then Strip(s[..|s| - 1]) else s
  }

  function Emit(line: Bytes): seq<Bytes> {
    if line == [] then [] else [line]
  }

  /** The records that repeated reads take out of `s`. */
  function Records(s: Bytes): seq<Bytes> {
    if s == [] then [] else Emit(Strip(s[..ChunkLen(s)])) + Records(s[ChunkLen(s)..])
  }

  // ---------------------------------------------------------------- reference definition

  /** `s` cut at every newline (10), the newlines left out. */
  function Split(s: Bytes): (parts: seq<Bytes>)
    ensures |parts| > 0
  {
    if s == [] then [[]]
    else
      var rest := Split(s[1..]);
      if s[0] == 10 then [[]] + rest else [[s[0]] + rest[0]] + rest[1..]
  }

  /** Without the carriage returns (13) at its end. */
  function StripCR(s: Bytes): Bytes {
    if s != [] && s[|s| - 1] == 13 then StripCR(s[..|s| - 1]) else s
  }

  function EmitAll(parts: seq<Bytes>): seq<Bytes> {
    if parts == [] then [] else Emit(StripCR(parts[0])) + EmitAll(parts[1..])
  }

  function NonEmptyLines(s: Bytes): seq<Bytes> {
    EmitAll(Split(s))
  }

  // ---------------------------------------------------------------- the two agree

  ghost predicate NoLF(s: Bytes) {
    forall i :: 0 <= i < |s| ==> s[i] != LF
  }

  lemma {:induction false} SplitFirst(s: Bytes)
    requires s != []
    ensures var n := ChunkLen(s);
            if s[n - 1] == LF then Split(s) == [s[..n - 1]] + Split(s[n..]) else n == |s| && Split(s) == [s]
  {
    var t := s[1..];
    if s[0] != LF {
      if t == [] {
        assert s == [s[0]] && [s[0]] + Split(t)[0] == s;
        assert Split(t)[1..] == [];
      } else {
        SplitFirst(t);
        var n := ChunkLen(t);
        assert ChunkLen(s) == n + 1 && Split(s) == [[s[0]] + Split(t)[0]] + Split(t)[1..];
        hide Split, ChunkLen;
        assert t[n..] == s[n + 1..];
        if t[n - 1] == LF {
          assert [s[0]] + t[..n - 1] == s[..n];
          assert Split(t)[1..] == Split(s[n + 1..]);
        } else {
          assert [s[0]] + t == s;
        }
      }
    }
  }

  lemma {:induction false} StripNoLF(s: Bytes)
    requires NoLF(s)
    ensures Strip(s) == StripCR(s)
  {
    if s != [] && s[|s| - 1] == CR {
      StripNoLF(s[..|s| - 1]);
    }
  }

  lemma StripChunk(s: Bytes)
    requires s != []
    ensures var n := ChunkLen(s);
            Strip(s[..n]) == StripCR(if s[n - 1] == LF then s[..n - 1] else s[..n])
  {
    var n := ChunkLen(s);
    var c := s[..n];
    if s[n - 1] == LF {
      assert c[..n - 1] == s[..n - 1];
      StripNoLF(s[..n - 1]);
    } else {
      StripNoLF(c);
    }
  }

  /** The reader's loop emits exactly the non-empty lines. */
  lemma {:induction false} RecordsAreLines(s: Bytes)
    ensures Records(s) == NonEmptyLines(s)
    decreases |s|
  {
    if s == [] {
      assert Split(s) == [[]];
    } else {
      var n := ChunkLen(s);
      SplitFirst(s);
      StripChunk(s);
      if s[n - 1] == LF {
        RecordsAreLines(s[n..]);
        assert Split(s)[1..] == Split(s[n..]);
      } else {
        assert s[..n] == s && s[n..] == [];
        assert Split(s) == [s] && EmitAll([s]) == Emit(StripCR(s)) + EmitAll([]);
        assert Records(s) == Emit(Strip(s)) + Records([]);
      }
    }
  }

  // ---------------------------------------------------------------- whole-line prefixes

  ghost predicate WholeLines(s: Bytes) {
    s == [] || s[|s| - 1] == LF
  }

  lemma {:induction false} ChunkLenAppend(a: Bytes, b: Bytes)
    requires a != [] && WholeLines(a)
    ensures ChunkLen(a + b) == ChunkLen(a)
  {
    if a[0] != LF {
      assert (a + b)[1..] == a[1..] + b;
      ChunkLenAppend(a[1..], b);
    }
  }

  lemma RecordsUnfold(s: Bytes)
    requires s != []
    ensures Records(s) == Emit(Strip(s[..ChunkLen(s)])) + Records(s[ChunkLen(s)..])
  {
  }

  /** Cutting a stream after whole lines does not change its records. */
  lemma {:induction false} RecordsSplit(a: Bytes, b: Bytes)
    requires WholeLines(a)
    ensures Records(a + b) == Records(a) + Records(b)
    decreases |a|
  {
    if a == [] {
      assert a + b == b;
    } else {
      hide Records, Emit, Strip, ChunkLen;
      var n, s := ChunkLen(a), a + b;
      ChunkLenAppend(a, b);
      Cut(a, b, n);
      RecordsSplit(a[n..], b);
      RecordsUnfold(a);
      RecordsUnfold(s);
      Assoc(Emit(Strip(a[..n])), Records(a[n..]), Records(b));
    }
  }
}
