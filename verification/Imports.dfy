/**
 The transitive-import walk that builds a descriptor subset: a depth-first search that
 marks before descending and appends after, over any finite set of files, cyclic or not.
 */
module Imports {

  datatype File = File(name: string, dependencies: seq<string>)

  /** The file a name stands for during a walk from `root`: the root itself, otherwise the indexed file. */
  ghost function Node(root: File, byName: map<string, File>, n: string): File
    requires n == root.name || n in byName
  {
    if n == root.name then root else byName[n]
  }

  ghost function Universe(root: File, byName: map<string, File>): set<string> {
    byName.Keys + {root.name}
  }

  /** Indexing by name; the last file with a name wins. */
  method IndexByName(files: seq<File>) returns (byName: map<string, File>)
    ensures Indexed(byName)
    ensures forall n :: n in byName <==> exists f :: f in files && f.name == n
    ensures forall n :: n in byName ==> LastNamed(files, n, byName[n])
  {
    byName := map[];
    for i := 0 to |files|
      invariant Indexed(byName) && forall n :: n in byName <==> exists f :: f in files[..i] && f.name == n
      invariant forall n :: n in byName ==> LastNamed(files[..i], n, byName[n])
    {
      LastMoves(files, i);
      byName := byName[files[i].name := files[i]];
    }
    assert files[..|files|] == files;
  }

  /** The last of the files with this name. */
  ghost predicate LastNamed(files: seq<File>, n: string, file: File) {
    exists i :: 0 <= i < |files| && files[i] == file && file.name == n && forall j :: i < j < |files| ==> files[j].name != n
  }

  lemma LastMoves(files: seq<File>, i: nat)
    requires i < |files|
    ensures LastNamed(files[..i + 1], files[i].name, files[i])
    ensures forall n, file :: n != files[i].name && LastNamed(files[..i], n, file) ==> LastNamed(files[..i + 1], n, file)
    ensures forall f :: f in files[..i + 1] <==> f in files[..i] || f == files[i]
  {
    var less, more := files[..i], files[..i + 1];
    assert more == less + [files[i]];
    assert more[i] == files[i];
    forall n, file | n != files[i].name && LastNamed(less, n, file) ensures LastNamed(more, n, file) {
      var k :| 0 <= k < |less| && less[k] == file && file.name == n && forall j :: k < j < |less| ==> less[j].name != n;
      assert more[k] == file;
    }
  }

  ghost predicate Indexed(byName: map<string, File>) {
    forall n :: n in byName ==> byName[n].name == n
  }

  /** A chain of imports starting at the root, every link of it present. */
  ghost predicate Path(root: File, byName: map<string, File>, p: seq<string>) {
    && |p| > 0 && p[0] == root.name
    && (forall i :: 0 <= i < |p| ==> p[i] in Universe(root, byName))
    && (forall i :: 0 < i < |p| ==> p[i] in byName && p[i] in Node(root, byName, p[i - 1]).dependencies)
  }

  ghost predicate Reachable(root: File, byName: map<string, File>, n: string) {
    exists p :: Path(root, byName, p) && p[|p| - 1] == n
  }

  /** Some reachable file imports a file that is not there. */
  ghost predicate Incomplete(root: File, byName: map<string, File>) {
    exists n, d :: MissingImport(root, byName, n, d)
  }

  ghost predicate MissingImport(root: File, byName: map<string, File>, n: string, d: string) {
    && Reachable(root, byName, n) && n in Universe(root, byName)
    && d in Node(root, byName, n).dependencies && d !in byName
  }

  lemma RootReachable(root: File, byName: map<string, File>)
    ensures Reachable(root, byName, root.name)
  {
    assert Path(root, byName, [root.name]);
  }

  lemma StepReachable(root: File, byName: map<string, File>, n: string, d: string)
    requires Reachable(root, byName, n) && n in Universe(root, byName)
    requires d in Node(root, byName, n).dependencies && d in byName
    ensures Reachable(root, byName, d)
  {
    var p :| Path(root, byName, p) && p[|p| - 1] == n;
    var q := p + [d];
    assert q[|q| - 1] == d && q[|q| - 2] == n;
    assert forall i :: 0 <= i < |p| ==> q[i] == p[i];
    assert Path(root, byName, q);
  }

  /** Imports strictly descend in `rank`: the import graph is acyclic. */
  ghost predicate Acyclic(root: File, byName: map<string, File>, rank: string -> nat) {
    forall n, d :: n in Universe(root, byName) && d in Node(root, byName, n).dependencies && d in byName ==>
      rank(d) < rank(n)
  }

  ghost function Names(files: seq<File>): set<string> {
    set f | f in files :: f.name
  }

  ghost predicate DistinctNames(files: seq<File>) {
    forall i, j :: 0 <= i < j < |files| ==> files[i].name != files[j].name
  }

  /** Every import of a listed file stands before it. */
  ghost predicate ImportsFirst(files: seq<File>) {
    forall i, d :: 0 <= i < |files| && d in files[i].dependencies ==> d in Names(files[..i])
  }

  /** Every file of `set` has all its imports indexed and seen. */
  ghost predicate Closed(root: File, byName: map<string, File>, names: set<string>, seen: set<string>) {
    forall n, d :: n in names && n in Universe(root, byName) && d in Node(root, byName, n).dependencies ==>
      d in byName && d in seen
  }

  /** Between visits: marks and list hold reachable files only, each listed once. */
  ghost predicate Consistent(root: File, byName: map<string, File>, seen: set<string>, files: seq<File>) {
    && Indexed(byName) && seen <= Universe(root, byName)
    && (forall n :: n in seen ==> Reachable(root, byName, n))
    && (forall f :: f in files ==> f.name in seen && f == Node(root, byName, f.name))
    && DistinctNames(files)
  }

  /** Files marked but not yet listed. */
  ghost function Open(seen: set<string>, files: seq<File>): set<string> {
    seen - Names(files)
  }

  /** Where import order can be promised: everything listed is ordered, everything open ranks above `n`. */
  ghost predicate OrderedAt(root: File, byName: map<string, File>, seen: set<string>, files: seq<File>,
                            rank: string -> nat, n: string)
  {
    && Acyclic(root, byName, rank) && ImportsFirst(files)
    && (forall m :: m in Open(seen, files) ==> rank(n) < rank(m))
  }

  ghost predicate IsNode(root: File, byName: map<string, File>, f: File) {
    f.name in Universe(root, byName) && f == Node(root, byName, f.name)
  }

  /** The first `n` imports of `f` are indexed and seen. */
  ghost predicate ImportsSeen(byName: map<string, File>, f: File, n: nat, seen: set<string>) {
    n <= |f.dependencies| && forall k :: 0 <= k < n ==> f.dependencies[k] in byName && f.dependencies[k] in seen
  }

  lemma MarkStep(root: File, byName: map<string, File>, seen: set<string>, files: seq<File>, f: File)
    requires Consistent(root, byName, seen, files) && f.name !in seen
    requires IsNode(root, byName, f) && Reachable(root, byName, f.name)
    ensures Consistent(root, byName, seen + {f.name}, files)
    ensures Open(seen + {f.name}, files) == Open(seen, files) + {f.name}
    ensures Universe(root, byName) - (seen + {f.name}) < Universe(root, byName) - seen
  {
    assert f.name !in Names(files);
    assert f.name in Universe(root, byName) - seen;
  }

  lemma NamesAppend(files: seq<File>, f: File)
    ensures Names(files + [f]) == Names(files) + {f.name}
  {
    assert forall g :: g in files + [f] <==> g in files || g == f;
  }

  lemma ListStep(root: File, byName: map<string, File>, seen: set<string>, files: seq<File>, f: File, open: set<string>)
    requires Consistent(root, byName, seen, files) && f.name in seen && IsNode(root, byName, f)
    requires f.name !in open && Open(seen, files) == open + {f.name}
    ensures Consistent(root, byName, seen, files + [f]) && Open(seen, files + [f]) == open
  {
    NamesAppend(files, f);
    assert f.name in Open(seen, files);
    forall i | 0 <= i < |files|
      ensures files[i].name != f.name
    {
      assert files[i] in files;
    }
  }

  /** In an acyclic graph no import of `f` is open when `f` is about to be listed. */
  lemma ImportsListed(root: File, byName: map<string, File>, seen: set<string>, files: seq<File>, rank: string -> nat,
                      f: File, open: set<string>)
    requires Acyclic(root, byName, rank) && IsNode(root, byName, f) && ImportsSeen(byName, f, |f.dependencies|, seen)
    requires Open(seen, files) == open + {f.name} && forall m :: m in open ==> rank(f.name) < rank(m)
    ensures forall d :: d in f.dependencies ==> d in Names(files)
  {
    forall d | d in f.dependencies
      ensures d in Names(files)
    {
      assert d in byName && d in seen;
      assert rank(d) < rank(f.name);
      assert d !in Open(seen, files);
    }
  }

  lemma ListOrdered(files: seq<File>, f: File)
    requires ImportsFirst(files) && forall d :: d in f.dependencies ==> d in Names(files)
    ensures ImportsFirst(files + [f])
  {
    var more := files + [f];
    forall i, d | 0 <= i < |more| && d in more[i].dependencies
      ensures d in Names(more[..i])
    {
      if i < |files| {
        assert more[i] == files[i] && more[..i] == files[..i];
      } else {
        assert more[..i] == files;
      }
    }
  }

  lemma ClosedUnion(root: File, byName: map<string, File>, a: set<string>, seen: set<string>, b: set<string>, more: set<string>)
    requires Closed(root, byName, a, seen) && Closed(root, byName, b, more) && seen <= more
    ensures Closed(root, byName, a + b, more)
  {
  }

  lemma ClosedWith(root: File, byName: map<string, File>, f: File, before: set<string>, seen: set<string>)
    requires IsNode(root, byName, f) && ImportsSeen(byName, f, |f.dependencies|, seen)
    requires Closed(root, byName, seen - before - {f.name}, seen)
    ensures Closed(root, byName, seen - before, seen)
  {
    forall n, d | n in seen - before && n in Universe(root, byName) && d in Node(root, byName, n).dependencies
      ensures d in byName && d in seen
    {
      if n != f.name {
        assert n in seen - before - {f.name};
      }
    }
  }

  class Walker {
    const root: File
    const byName: map<string, File>
    var seen: set<string>
    var files: seq<File>

    constructor (root: File, byName: map<string, File>)
      ensures this.root == root && this.byName == byName && seen == {} && files == []
    {
      this.root, this.byName := root, byName;
      seen, files := {}, [];
    }

    /** The recursive walk. `ordered` asks for the promise about import order. */
    method Walk(f: File, ghost rank: string -> nat, ghost ordered: bool) returns (ok: bool)
      requires Consistent(root, byName, seen, files) && (f == root || root.name in seen)
      requires f.name in seen || (IsNode(root, byName, f) && Reachable(root, byName, f.name))
      requires ordered ==> OrderedAt(root, byName, seen, files, rank, f.name)
      modifies this
      ensures Consistent(root, byName, seen, files) && old(seen) <= seen
      ensures ok ==> && f.name in seen && Open(seen, files) == old(Open(seen, files))
                     && Closed(root, byName, seen - old(seen), seen)
      ensures !ok ==> Incomplete(root, byName)
      ensures ok && ordered ==> ImportsFirst(files)
      decreases Universe(root, byName) - seen, 0
    {
      if f.name in seen {
        return true;
      }
      ghost var before, open := seen, Open(seen, files);
      MarkStep(root, byName, seen, files, f);
      seen := seen + {f.name};
      ok := WalkImports(f, rank, ordered, before, open);
      if !ok {
        return;
      }
      ListStep(root, byName, seen, files, f, open);
      ClosedWith(root, byName, f, before, seen);
      if ordered {
        ImportsListed(root, byName, seen, files, rank, f, open);
        ListOrdered(files, f);
      }
      files := files + [f];
    }

    /** Visits the imports of `f`, which is marked but not yet listed. */
    method WalkImports(f: File, ghost rank: string -> nat, ghost ordered: bool, ghost before: set<string>,
                       ghost open: set<string>)
      returns (ok: bool)
      requires Consistent(root, byName, seen, files) && root.name in seen && seen == before + {f.name}
      requires IsNode(root, byName, f) && Open(seen, files) == open + {f.name}
      requires ordered ==> Acyclic(root, byName, rank) && ImportsFirst(files) && forall m :: m in open ==> rank(f.name) < rank(m)
      modifies this
      ensures Consistent(root, byName, seen, files) && old(seen) <= seen
      ensures ok ==> && Open(seen, files) == open + {f.name} && ImportsSeen(byName, f, |f.dependencies|, seen)
                     && Closed(root, byName, seen - before - {f.name}, seen)
      ensures !ok ==> Incomplete(root, byName)
      ensures ok && ordered ==> ImportsFirst(files)
      decreases Universe(root, byName) - seen, 2
    {
      for i := 0 to |f.dependencies|
        invariant Consistent(root, byName, seen, files) && old(seen) <= seen && Open(seen, files) == open + {f.name}
        invariant ImportsSeen(byName, f, i, seen) && Closed(root, byName, seen - before - {f.name}, seen)
        invariant ordered ==> ImportsFirst(files)
      {
        ghost var middle := seen;
        ok := WalkImport(f, f.dependencies[i], rank, ordered, open);
        if !ok {
          return;
        }
        ClosedUnion(root, byName, middle - before - {f.name}, middle, seen - middle, seen);
        assert seen - before - {f.name} == (middle - before - {f.name}) + (seen - middle);
      }
      ok := true;
    }

    /** Visits one import. */
    method WalkImport(f: File, dependency: string, ghost rank: string -> nat, ghost ordered: bool, ghost open: set<string>)
      returns (ok: bool)
      requires Consistent(root, byName, seen, files) && root.name in seen && f.name in seen
      requires IsNode(root, byName, f) && dependency in f.dependencies && Open(seen, files) == open + {f.name}
      requires ordered ==> Acyclic(root, byName, rank) && ImportsFirst(files) && forall m :: m in open ==> rank(f.name) < rank(m)
      modifies this
      ensures Consistent(root, byName, seen, files) && old(seen) <= seen
      ensures ok ==> && dependency in byName && dependency in seen && Open(seen, files) == open + {f.name}
                     && Closed(root, byName, seen - old(seen), seen)
      ensures !ok ==> Incomplete(root, byName)
      ensures ok && ordered ==> ImportsFirst(files)
      decreases Universe(root, byName) - seen, 1
    {
      if dependency !in byName {
        assert MissingImport(root, byName, f.name, dependency);
        return false;
      }
      StepReachable(root, byName, f.name, dependency);
      assert ordered ==> rank(dependency) < rank(f.name);
      ok := Walk(byName[dependency], rank, ordered);
    }
  }

  // ----- the subset

  lemma {:induction false} PathInClosed(root: File, byName: map<string, File>, p: seq<string>, seen: set<string>)
    requires Path(root, byName, p) && root.name in seen && Closed(root, byName, seen, seen)
    ensures p[|p| - 1] in seen
  {
    if |p| > 1 {
      var q := p[..|p| - 1];
      assert Path(root, byName, q);
      PathInClosed(root, byName, q, seen);
      assert p[|p| - 1] in Node(root, byName, p[|p| - 2]).dependencies;
    }
  }

  /** A closed set of marks holds everything reachable and no import is missing. */
  lemma ClosedIsComplete(root: File, byName: map<string, File>, seen: set<string>)
    requires root.name in seen && Closed(root, byName, seen, seen)
    ensures !Incomplete(root, byName)
    ensures forall n :: Reachable(root, byName, n) ==> n in seen
  {
    forall n | Reachable(root, byName, n)
      ensures n in seen
    {
      var p :| Path(root, byName, p) && p[|p| - 1] == n;
      PathInClosed(root, byName, p, seen);
    }
    assert forall n, d :: !MissingImport(root, byName, n, d);
  }

  /** Exactly the reachable files, each once. */
  ghost predicate Subset(root: File, byName: map<string, File>, files: seq<File>) {
    && DistinctNames(files)
    && (forall f :: f in files ==> IsNode(root, byName, f))
    && (forall n :: n in Names(files) <==> Reachable(root, byName, n))
  }

  ghost predicate Orderable(root: File, byName: map<string, File>) {
    exists rank: string -> nat :: Acyclic(root, byName, rank)
  }

  ghost function Rank(root: File, byName: map<string, File>): string -> nat {
    if rank: string -> nat :| Acyclic(root, byName, rank) then rank else _ => 0
  }

  /**
   The subset of a root: on success exactly the files reachable from it, each once, imports first when
   imports are acyclic; it fails exactly when a reachable file imports a missing one.
   */
  method MarshalSubset(root: File, byName: map<string, File>) returns (ok: bool, files: seq<File>)
    requires Indexed(byName)
    ensures ok <==> !Incomplete(root, byName)
    ensures ok ==> Subset(root, byName, files)
    ensures ok && Orderable(root, byName) ==> ImportsFirst(files)
  {
    var walker := new Walker(root, byName);
    RootReachable(root, byName);
    ghost var ordered := Orderable(root, byName);
    ok := walker.Walk(root, Rank(root, byName), ordered);
    files := walker.files;
    if ok {
      assert walker.seen - {} == walker.seen;
      ClosedIsComplete(root, byName, walker.seen);
      NothingOpen(root, byName, walker.seen, files);
    }
  }

  lemma NothingOpen(root: File, byName: map<string, File>, seen: set<string>, files: seq<File>)
    requires Consistent(root, byName, seen, files) && Open(seen, files) == {}
    requires forall n :: Reachable(root, byName, n) ==> n in seen
    ensures Subset(root, byName, files)
  {
    forall n
      ensures n in Names(files) <==> Reachable(root, byName, n)
    {
      if n in seen {
        assert n !in Open(seen, files);
      }
      if n in Names(files) {
        var f :| f in files && f.name == n;
      }
    }
  }
}
