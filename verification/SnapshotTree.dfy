/** Git tree order (internal/git/tree.go) and the validation of snapshots (internal/git/path.go). */
module SnapshotTree {
  import opened GitGraph
  import opened TreeLookup
  import opened Ordering
  import Policy

  datatype File = File(path: string, data: string)

  function PathOf(f: File): string { f.path }

  // ---- Git tree order ----

  /** treeEntryLess: byte order of names, a tree comparing as if its name ended in a slash. */
  function ByteAfter(e: TreeEntry, n: nat): char
  {
    if n < |e.name| then e.name[n] else if e.mode.ModeTree? then '/' else '\0'
  }

  predicate EntryLess(a: TreeEntry, b: TreeEntry)
  {
    var n := if |b.name| < |a.name| then |b.name| else |a.name|;
    if a.name[..n] != b.name[..n] then Less(a.name[..n], b.name[..n]) else ByteAfter(a, n) < ByteAfter(b, n)
  }

  function GitKey(e: TreeEntry): string { if e.mode.ModeTree? then e.name + "/" else e.name }

  predicate PlainName(s: string) { SlashFree(s) && Policy.NulFree(s) }

  lemma {:induction false} LessAfterPrefix(p: string, a: string, b: string)
    ensures Less(p + a, p + b) <==> Less(a, b)
  {
    if p == "" {
      assert p + a == a && p + b == b;
    } else {
      assert (p + a)[1..] == p[1..] + a && (p + b)[1..] == p[1..] + b;
      LessAfterPrefix(p[1..], a, b);
    }
  }

  lemma {:induction false} LessBeforePrefix(p: string, q: string, a: string, b: string)
    requires |p| == |q| && p != q
    ensures Less(p + a, q + b) <==> Less(p, q)
  {
    assert (p + a)[1..] == p[1..] + a && (q + b)[1..] == q[1..] + b;
    if p[0] == q[0] {
      assert p == [p[0]] + p[1..] && q == [q[0]] + q[1..];
      LessBeforePrefix(p[1..], q[1..], a, b);
    }
  }

  /** On slash-free, NUL-free names the comparison is the byte order of the keys. */
  lemma EntryOrderIsKeyOrder(a: TreeEntry, b: TreeEntry)
    requires PlainName(a.name) && PlainName(b.name)
    ensures EntryLess(a, b) <==> Less(GitKey(a), GitKey(b))
  {
    var n := if |b.name| < |a.name| then |b.name| else |a.name|;
    var p, q := a.name[..n], b.name[..n];
    var x, y := GitKey(a)[n..], GitKey(b)[n..];
    assert GitKey(a) == p + x && GitKey(b) == q + y;
    if p != q {
      LessBeforePrefix(p, q, x, y);
    } else {
      LessAfterPrefix(p, x, y);
      if x != "" && y != "" && x[0] == y[0] {
        assert x == "/" && y == "/";
      }
    }
  }

  /** Git tree order, from the bytes alone: the first position at which the names differ decides once every
      tree name is extended by a slash. */
  lemma EntryOrderIsFirstDifference(a: TreeEntry, b: TreeEntry)
    requires PlainName(a.name) && PlainName(b.name)
    ensures var x := if a.mode.ModeTree? then a.name + "/" else a.name;
            var y := if b.mode.ModeTree? then b.name + "/" else b.name;
            EntryLess(a, b) <==> exists k :: 0 <= k <= |x| && k < |y| && x[..k] == y[..k] && (k == |x| || x[k] < y[k])
  {
    EntryOrderIsKeyOrder(a, b);
    LessIsFirstDifference(GitKey(a), GitKey(b));
  }

  /** Git tree order is a strict total order on such names. */
  lemma EntryOrderTotal(a: TreeEntry, b: TreeEntry, c: TreeEntry)
    requires PlainName(a.name) && PlainName(b.name) && PlainName(c.name)
    ensures !EntryLess(a, a)
    ensures EntryLess(a, b) && EntryLess(b, c) ==> EntryLess(a, c)
    ensures a.name != b.name ==> EntryLess(a, b) || EntryLess(b, a)
  {
    EntryOrderIsKeyOrder(a, a);
    EntryOrderIsKeyOrder(a, b);
    EntryOrderIsKeyOrder(b, a);
    EntryOrderIsKeyOrder(b, c);
    EntryOrderIsKeyOrder(a, c);
    LessIrreflexive(GitKey(a));
    LessTotal(GitKey(a), GitKey(b));
    if EntryLess(a, b) && EntryLess(b, c) { LessTransitive(GitKey(a), GitKey(b), GitKey(c)); }
    if a.name != b.name { KeysDiffer(a, b); }
  }

  lemma KeysDiffer(a: TreeEntry, b: TreeEntry)
    requires SlashFree(a.name) && SlashFree(b.name) && a.name != b.name
    ensures GitKey(a) != GitKey(b)
  {
    assert GitKey(a)[..|a.name|] == a.name && GitKey(b)[..|b.name|] == b.name;
    assert a.mode.ModeTree? ==> GitKey(a)[|a.name|] == '/';
    assert b.mode.ModeTree? ==> GitKey(b)[|b.name|] == '/';
  }

  /** Entries in Git tree order, under names a path segment can have. */
  ghost predicate GitOrdered(entries: seq<TreeEntry>)
  {
    && (forall e :: e in entries ==> PlainName(e.name))
    && forall i, j :: 0 <= i < j < |entries| ==> EntryLess(entries[i], entries[j])
  }

  lemma GitOrderIsKeyOrder(entries: seq<TreeEntry>)
    requires forall e :: e in entries ==> PlainName(e.name)
    ensures GitOrdered(entries) <==> Ascending(entries, GitKey)
  {
    forall i, j | 0 <= i < j < |entries|
      ensures EntryLess(entries[i], entries[j]) <==> Less(GitKey(entries[i]), GitKey(entries[j]))
    {
      assert entries[i] in entries && entries[j] in entries;
      EntryOrderIsKeyOrder(entries[i], entries[j]);
    }
  }

  // ---- Snapshots ----

  ghost predicate NoFileIsDirectory(files: seq<File>)
  {
    forall f, g :: f in files && g in files ==> !Policy.IsAncestor(f.path, g.path)
  }

  /** What validation demands of a snapshot: the rules of one path and one content are parameters. */
  ghost predicate SnapshotOk(host: Policy.Host, contentOk: string -> bool, files: seq<File>)
  {
    && (forall f :: f in files ==> host.valid(f.path) && contentOk(f.data))
    && (forall i, j :: 0 <= i < j < |files| ==> host.fold(files[i].path) != host.fold(files[j].path))
    && NoFileIsDirectory(files)
  }

  /** Some file lies below a directory that has the name of a file. */
  method FileDirectoryCollision(files: seq<File>, names: set<string>) returns (found: bool)
    requires forall p :: p in names <==> exists f :: f in files && f.path == p
    ensures found <==> !NoFileIsDirectory(files)
  {
    for i := 0 to |files|
      invariant forall f, j :: f in files && 0 <= j < i ==> !Policy.IsAncestor(f.path, files[j].path)
    {
      var path := files[i].path;
      for k := 0 to |path|
        invariant forall m :: 0 <= m < k && path[m] == '/' ==> path[..m] !in names
      {
        if path[k] == '/' && path[..k] in names {
          var f :| f in files && f.path == path[..k];
          assert Policy.IsAncestor(f.path, files[i].path) && files[i] in files;
          return true;
        }
      }
      forall f | f in files ensures !Policy.IsAncestor(f.path, path) {
        assert f.path <= path ==> f.path == path[..|f.path|];
      }
    }
    return false;
  }

  method ValidateSnapshot(host: Policy.Host, contentOk: string -> bool, files: seq<File>) returns (ok: bool)
    ensures ok <==> SnapshotOk(host, contentOk, files)
  {
    var seen: set<string> := {};
    var names: set<string> := {};
    for i := 0 to |files|
      invariant forall j :: 0 <= j < i ==> host.valid(files[j].path) && contentOk(files[j].data)
      invariant forall s :: s in seen <==> exists j :: 0 <= j < i && host.fold(files[j].path) == s
      invariant forall s :: s in names <==> exists j :: 0 <= j < i && files[j].path == s
      invariant forall j, k :: 0 <= j < k < i ==> host.fold(files[j].path) != host.fold(files[k].path)
    {
      var f := files[i];
      if !host.valid(f.path) || !contentOk(f.data) {
        assert f in files;
        return false;
      }
      if host.fold(f.path) in seen {
        return false;
      }
      seen := seen + {host.fold(f.path)};
      names := names + {f.path};
    }
    var collision := FileDirectoryCollision(files, names);
    return !collision;
  }

  lemma SnapshotPathsDistinct(host: Policy.Host, contentOk: string -> bool, files: seq<File>)
    requires SnapshotOk(host, contentOk, files)
    ensures DistinctKeys(files, PathOf)
  {
    forall i, j | 0 <= i < j < |files| ensures files[i].path != files[j].path {
      assert host.fold(files[i].path) != host.fold(files[j].path);
    }
  }
}
