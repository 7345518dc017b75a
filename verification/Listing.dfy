/** Listing the directory: regular files whose name passes the filter, oldest first. */
module Listing {
  import opened DirReader

  datatype Entry = Entry(path: Path, isDir: bool, mtime: int)

  /** `order` lists exactly the paths in `paths`, each once, oldest modification time first. */
  ghost predicate IsListing(order: seq<Path>, paths: set<Path>, mtime: map<Path, int>) {
    && (forall p :: p in order <==> p in paths)
    && (forall i, j :: 0 <= i < j < |order| ==> order[i] != order[j])
    && paths <= mtime.Keys
    && (forall i, j :: 0 <= i < j < |order| ==> mtime[order[i]] <= mtime[order[j]])
  }

  /** With distinct modification times there is only one listing, so the reader's order does not
      depend on the sort algorithm. */
  lemma {:induction false} ListingUnique(a: seq<Path>, b: seq<Path>, paths: set<Path>, mtime: map<Path, int>)
    requires IsListing(a, paths, mtime) && IsListing(b, paths, mtime) && paths <= mtime.Keys
    requires forall p, q :: p in paths && q in paths && mtime[p] == mtime[q] ==> p == q
    ensures a == b
    decreases |a|
  {
    hide IsListing;
    if a == [] {
      EmptyListing(a, b, paths, mtime);
    } else {
      SameFirst(a, b, paths, mtime);
      Rest(a, paths, mtime);
      Rest(b, paths, mtime);
      ListingUnique(a[1..], b[1..], paths - {a[0]}, mtime);
      assert a == [a[0]] + a[1..] && b == [b[0]] + b[1..];
    }
  }

  lemma FirstListed(b: seq<Path>, paths: set<Path>, mtime: map<Path, int>)
    requires IsListing(b, paths, mtime) && b != []
    ensures b[0] in paths
  {
  }

  lemma EmptyListing(a: seq<Path>, b: seq<Path>, paths: set<Path>, mtime: map<Path, int>)
    requires IsListing(a, paths, mtime) && IsListing(b, paths, mtime) && a == []
    ensures b == []
  {
    assert forall p :: p in paths ==> p in a;
    hide IsListing;
    if b != [] {
      FirstListed(b, paths, mtime);
    }
  }

  lemma SameFirst(a: seq<Path>, b: seq<Path>, paths: set<Path>, mtime: map<Path, int>)
    requires IsListing(a, paths, mtime) && IsListing(b, paths, mtime) && a != []
    requires paths <= mtime.Keys
    requires forall p, q :: p in paths && q in paths && mtime[p] == mtime[q] ==> p == q
    ensures b != [] && a[0] == b[0]
  {
    assert a[0] in paths && a[0] in b;
    assert b[0] in paths && b[0] in a;
  }

  lemma Rest(a: seq<Path>, paths: set<Path>, mtime: map<Path, int>)
    requires IsListing(a, paths, mtime) && a != []
    ensures IsListing(a[1..], paths - {a[0]}, mtime)
  {
    forall p | p in a[1..] ensures p in paths - {a[0]} {
      var k :| 0 <= k < |a| - 1 && a[1..][k] == p;
      assert a[k + 1] == p;
    }
    forall p | p in paths - {a[0]} ensures p in a[1..] {
      var k :| 0 <= k < |a| && a[k] == p;
      assert a[1..][k - 1] == p;
    }
  }

  /** `order` with `p` at position `k`. */
  function InsertAt(order: seq<Path>, p: Path, k: nat): (r: seq<Path>)
    requires k <= |order|
    ensures |r| == |order| + 1
    ensures forall i :: 0 <= i < |r| ==> r[i] == if i < k then order[i] else if i == k then p else order[i - 1]
  {
    order[..k] + [p] + order[k..]
  }

  lemma InsertMembers(order: seq<Path>, p: Path, k: nat)
    requires k <= |order|
    ensures forall q :: q in InsertAt(order, p, k) <==> q in order || q == p
  {
    var r := InsertAt(order, p, k);
    hide InsertAt;
    forall q | q in order ensures q in r {
      var i :| 0 <= i < |order| && order[i] == q;
      assert r[if i < k then i else i + 1] == q;
    }
    assert r[k] == p;
  }

  lemma InsertListing(order: seq<Path>, p: Path, k: nat, paths: set<Path>, mtime: map<Path, int>)
    requires IsListing(order, paths, mtime) && p !in paths && p in mtime && k <= |order|
    requires forall j :: 0 <= j < k ==> mtime[order[j]] <= mtime[p]
    requires forall j :: k <= j < |order| ==> mtime[order[j]] > mtime[p]
    ensures IsListing(InsertAt(order, p, k), paths + {p}, mtime)
  {
    InsertMembers(order, p, k);
    hide InsertAt;
    var r := InsertAt(order, p, k);
    assert forall j :: 0 <= j < |order| ==> order[j] in paths;
    assert forall j :: 0 <= j < |order| ==> order[j] != p;
  }

  /** Puts `p` behind every listed path that is not younger. */
  method InsertByTime(order: seq<Path>, p: Path, ghost paths: set<Path>, mtime: map<Path, int>) returns (r: seq<Path>)
    requires IsListing(order, paths, mtime) && p !in paths && p in mtime
    ensures IsListing(r, paths + {p}, mtime)
  {
    var k := |order|;
    assert forall j :: 0 <= j < |order| ==> order[j] in paths;
    while k > 0 && mtime[order[k - 1]] > mtime[p]
      invariant 0 <= k <= |order|
      invariant forall j :: k <= j < |order| ==> mtime[order[j]] > mtime[p]
    {
      k := k - 1;
    }
    r := InsertAt(order, p, k);
    InsertListing(order, p, k, paths, mtime);
  }

  /** `listFiles`: skip directories and names that do not pass, then sort by time. */
  method ListFiles(entries: seq<Entry>, passes: Path -> bool) returns (order: seq<Path>, mtime: map<Path, int>)
    requires forall i, j :: 0 <= i < j < |entries| ==> entries[i].path != entries[j].path
    ensures IsListing(order, set e | e in entries && !e.isDir && passes(e.path) :: e.path, mtime)
    ensures forall e :: e in entries && e.path in order ==> mtime[e.path] == e.mtime
  {
    order := [];
    var times: map<Path, int> := map[];
    ghost var paths: set<Path> := {};
    for k := 0 to |entries|
      invariant IsListing(order, paths, times)
      invariant paths == set e | e in entries[..k] && !e.isDir && passes(e.path) :: e.path
      invariant times.Keys == set e | e in entries[..k] :: e.path
      invariant forall e :: e in entries[..k] ==> times[e.path] == e.mtime
    {
      var e := entries[k];
      assert entries[..k + 1] == entries[..k] + [e];
      assert e.path !in times.Keys;
      times := times[e.path := e.mtime];
      if !e.isDir && passes(e.path) {
        order := InsertByTime(order, e.path, paths, times);
        paths := paths + {e.path};
      }
    }
    assert entries[..|entries|] == entries;
    mtime := times;
  }
}
