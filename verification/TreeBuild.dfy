/** Building the tree of a snapshot (buildTree of internal/git/tree.go) in a content-addressed store. */
module TreeBuild {
  import opened GitGraph
  import opened TreeLookup
  import opened Wrappers
  import opened Ordering
  import opened SnapshotTree
  import Policy

  // ---- The store ----

  /** An ideal object hash: injective, and never smaller than what the object refers to, so that
      references cannot form a cycle. */
  ghost predicate IdealHash(hash: Object -> Oid)
  {
    && (forall a, b :: hash(a) == hash(b) ==> a == b)
    && forall entries: seq<TreeEntry>, e :: e in entries ==> e.id < hash(Tree(entries))
  }

  ghost predicate Stored(hash: Object -> Oid, repo: Repo)
  {
    forall x :: x in repo.objects ==> hash(repo.objects[x]) == x
  }

  ghost predicate Extends(repo: Repo, more: Repo)
  {
    more.grafts == repo.grafts &&
    forall x :: x in repo.objects ==> x in more.objects && more.objects[x] == repo.objects[x]
  }

  lemma StoredIsAcyclic(hash: Object -> Oid, repo: Repo)
    requires IdealHash(hash) && Stored(hash, repo)
    ensures Acyclic(repo)
  {
    forall x, e | IsTree(repo, x) && e in repo.objects[x].entries ensures e.id < x {
      assert repo.objects[x] == Tree(repo.objects[x].entries) && hash(repo.objects[x]) == x;
    }
  }

  /** WriteBlob and WriteTree. */
  method WriteObject(hash: Object -> Oid, repo: Repo, o: Object) returns (more: Repo, id: Oid)
    requires IdealHash(hash) && Stored(hash, repo)
    ensures Stored(hash, more) && Extends(repo, more) && id in more.objects && more.objects[id] == o
  {
    id := hash(o);
    more := repo.(objects := repo.objects[id := o]);
  }

  // ---- What a written tree looks like ----

  /** Entries in Git order, no empty directory below the root, every reference present. */
  ghost predicate EntryCanonical(repo: Repo, e: TreeEntry, bound: nat)
    decreases bound, 0
  {
    match e.mode
    case ModeBlob => e.id in repo.objects && repo.objects[e.id].Blob?
    case ModeTree => e.id < bound && Canonical(repo, e.id) && repo.objects[e.id].entries != []
    case ModeOther => false
  }

  ghost predicate Canonical(repo: Repo, tree: Oid)
    ensures Canonical(repo, tree) ==> IsTree(repo, tree)
    decreases tree, 1
  {
    IsTree(repo, tree) && var entries := repo.objects[tree].entries;
    NamesOk(entries) && GitOrdered(entries) && forall e :: e in entries ==> EntryCanonical(repo, e, tree)
  }

  lemma {:induction false} CanonicalStays(repo: Repo, more: Repo, tree: Oid)
    requires Canonical(repo, tree) && Extends(repo, more)
    ensures Canonical(more, tree)
    decreases tree
  {
    forall e | e in repo.objects[tree].entries ensures EntryCanonical(more, e, tree) {
      assert EntryCanonical(repo, e, tree);
      if e.mode.ModeTree? { CanonicalStays(repo, more, e.id); }
    }
  }

  /** The content a list of entries holds at a path. */
  function EntryData(repo: Repo, entries: seq<TreeEntry>, q: string): Option<string>
  {
    match Find(entries, First(q))
    case None => None
    case Some(e) => UnderData(repo, e, q)
  }

  function UnderData(repo: Repo, e: TreeEntry, q: string): Option<string>
  {
    match Under(repo, e, q)
    case None => None
    case Some(id) => if id in repo.objects && repo.objects[id].Blob? then Some(repo.objects[id].data) else None
  }

  lemma {:induction false} DataStays(repo: Repo, more: Repo, tree: Oid, q: string)
    requires Canonical(repo, tree) && Extends(repo, more)
    ensures BlobAt(more, tree, q) == BlobAt(repo, tree, q) && DataAt(more, tree, q) == DataAt(repo, tree, q)
    ensures BlobAt(repo, tree, q).Some? ==> DataAt(repo, tree, q).Some?
    decreases |q|
  {
    var entries := repo.objects[tree].entries;
    FindSound(entries, First(q));
    if Find(entries, First(q)).Some? {
      var e := Find(entries, First(q)).value;
      assert EntryCanonical(repo, e, tree);
      if Nested(q) && e.mode.ModeTree? { DataStays(repo, more, e.id, After(q)); }
    }
  }

  lemma UnderStays(repo: Repo, more: Repo, e: TreeEntry, bound: nat, q: string)
    requires EntryCanonical(repo, e, bound) && Extends(repo, more)
    ensures UnderData(more, e, q) == UnderData(repo, e, q)
  {
    if Nested(q) && e.mode.ModeTree? { DataStays(repo, more, e.id, After(q)); }
  }

  /** The tree holds exactly these files. */
  ghost predicate Represents(repo: Repo, tree: Oid, files: seq<File>)
  {
    forall q, d :: File(q, d) in files <==> DataAt(repo, tree, q) == Some(d)
  }

  // ---- Grouping a sorted fragment by its first segment ----

  /** Everything between two strings with a common prefix has that prefix. */
  lemma {:induction false} PrefixConvex(prefix: string, a: string, b: string, c: string)
    requires prefix <= a && prefix <= c && Less(a, b) && Less(b, c)
    ensures prefix <= b
  {
    if prefix != "" {
      PrefixConvex(prefix[1..], a[1..], b[1..], c[1..]);
      assert prefix == [prefix[0]] + prefix[1..] && b == [b[0]] + b[1..];
    }
  }

  function Strip(prefix: string, f: File): File
    requires prefix <= f.path
  {
    File(f.path[|prefix|..], f.data)
  }

  /** The run of files from i on that lie below one directory, with that directory stripped. */
  method TakeGroup(files: seq<File>, i: nat, prefix: string) returns (j: nat, sub: seq<File>)
    requires i < |files| && prefix <= files[i].path
    ensures i < j <= |files| && |sub| == j - i
    ensures forall k :: i <= k < j ==> prefix <= files[k].path && sub[k - i] == Strip(prefix, files[k])
    ensures j < |files| ==> !(prefix <= files[j].path)
  {
    j := i;
    sub := [];
    while j < |files| && prefix <= files[j].path
      invariant i <= j <= |files| && |sub| == j - i
      invariant forall k :: i <= k < j ==> prefix <= files[k].path && sub[k - i] == Strip(prefix, files[k])
      decreases |files| - j
    {
      sub := sub + [Strip(prefix, files[j])];
      j := j + 1;
    }
  }

  /** Sorting keeps the files of a directory together. */
  lemma GroupIsContiguous(files: seq<File>, i: nat, j: nat, prefix: string, k: nat)
    requires Ascending(files, PathOf) && i < j <= k < |files| && prefix <= files[i].path && !(prefix <= files[j].path)
    ensures !(prefix <= files[k].path)
  {
    if prefix <= files[k].path && j < k { PrefixConvex(prefix, files[i].path, files[j].path, files[k].path); }
  }

  lemma GroupAscends(files: seq<File>, i: nat, j: nat, prefix: string, sub: seq<File>)
    requires Ascending(files, PathOf) && i <= j <= |files| && |sub| == j - i
    requires forall k :: i <= k < j ==> prefix <= files[k].path && sub[k - i] == Strip(prefix, files[k])
    ensures Ascending(sub, PathOf)
  {
    forall a, b | 0 <= a < b < |sub| ensures Less(sub[a].path, sub[b].path) {
      var f, g := files[i + a], files[i + b];
      assert f.path == prefix + sub[a].path && g.path == prefix + sub[b].path;
      LessAfterPrefix(prefix, sub[a].path, sub[b].path);
    }
  }

  lemma AncestorUnder(prefix: string, a: string, b: string)
    ensures Policy.IsAncestor(a, b) ==> Policy.IsAncestor(prefix + a, prefix + b)
  {
    if Policy.IsAncestor(a, b) {
      assert b[..|a|] == a;
      assert (prefix + b)[..|prefix + a|] == prefix + a && (prefix + b)[|prefix + a|] == '/';
    }
  }

  lemma GroupHasNoDirectoryFile(files: seq<File>, i: nat, j: nat, prefix: string, sub: seq<File>)
    requires NoFileIsDirectory(files) && i <= j <= |files| && |sub| == j - i
    requires forall k :: i <= k < j ==> prefix <= files[k].path && sub[k - i] == Strip(prefix, files[k])
    ensures NoFileIsDirectory(sub)
  {
    forall f, g | f in sub && g in sub ensures !Policy.IsAncestor(f.path, g.path) {
      var a :| 0 <= a < |sub| && sub[a] == f;
      var b :| 0 <= b < |sub| && sub[b] == g;
      var f', g' := files[i + a], files[i + b];
      assert f' in files && g' in files && f'.path == prefix + f.path && g'.path == prefix + g.path;
      AncestorUnder(prefix, f.path, g.path);
    }
  }

  // ---- One directory ----

  /** The entries built so far account for exactly the files before i. */
  ghost predicate LevelOk(repo: Repo, files: seq<File>, i: nat, entries: seq<TreeEntry>)
  {
    && i <= |files| && NamesOk(entries) && (forall e :: e in entries ==> PlainName(e.name))
    && (forall e :: e in entries ==> EntryCanonical(repo, e, e.id + 1))
    && (forall k, e :: i <= k < |files| && e in entries ==> First(files[k].path) != e.name)
    && (forall q, d :: File(q, d) in files[..i] <==> EntryData(repo, entries, q) == Some(d))
  }

  /** The files from i to j are exactly what entry e holds. */
  ghost predicate EntryHolds(repo: Repo, files: seq<File>, i: nat, j: nat, e: TreeEntry)
    requires i <= j <= |files|
  {
    forall q, d :: File(q, d) in files[i..j] <==> First(q) == e.name && UnderData(repo, e, q) == Some(d)
  }

  lemma {:induction false} FindAppend(entries: seq<TreeEntry>, e: TreeEntry, name: string)
    ensures Find(entries + [e], name) ==
            if Find(entries, name).Some? then Find(entries, name) else if e.name == name then Some(e) else None
  {
    if entries == [] {
      assert entries + [e] == [e];
    } else {
      assert (entries + [e])[1..] == entries[1..] + [e];
      FindAppend(entries[1..], e, name);
    }
  }

  lemma DataAppend(repo: Repo, more: Repo, entries: seq<TreeEntry>, e: TreeEntry, q: string)
    requires Extends(repo, more) && (forall x :: x in entries ==> EntryCanonical(repo, x, x.id + 1) && x.name != e.name)
    ensures EntryData(more, entries + [e], q) == if First(q) == e.name then UnderData(more, e, q)
      else EntryData(repo, entries, q)
  {
    FindAppend(entries, e, First(q));
    FindSound(entries, First(q));
    if Find(entries, First(q)).Some? {
      var x := Find(entries, First(q)).value;
      UnderStays(repo, more, x, x.id + 1, q);
    }
  }

  lemma EntryStays(repo: Repo, more: Repo, e: TreeEntry, bound: nat)
    requires EntryCanonical(repo, e, bound) && Extends(repo, more)
    ensures EntryCanonical(more, e, bound)
  {
    if e.mode.ModeTree? { CanonicalStays(repo, more, e.id); }
  }

  lemma NamesAppend(entries: seq<TreeEntry>, e: TreeEntry)
    requires NamesOk(entries) && SlashFree(e.name) && forall x :: x in entries ==> x.name != e.name
    ensures NamesOk(entries + [e])
  {
  }

  lemma AddEntry(repo: Repo, more: Repo, files: seq<File>, i: nat, j: nat, entries: seq<TreeEntry>, e: TreeEntry)
    requires LevelOk(repo, files, i, entries) && Extends(repo, more) && i < j <= |files|
    requires EntryCanonical(more, e, e.id + 1) && PlainName(e.name) && e.name == First(files[i].path)
    requires forall k :: j <= k < |files| ==> First(files[k].path) != e.name
    requires EntryHolds(more, files, i, j, e)
    ensures LevelOk(more, files, j, entries + [e])
  {
    forall x | x in entries ensures x.name != e.name && EntryCanonical(more, x, x.id + 1) {
      EntryStays(repo, more, x, x.id + 1);
    }
    NamesAppend(entries, e);
    assert files[..j] == files[..i] + files[i..j];
    forall q, d ensures File(q, d) in files[..j] <==> EntryData(more, entries + [e], q) == Some(d) {
      DataAppend(repo, more, entries, e, q);
      assert File(q, d) in files[..j] <==> File(q, d) in files[..i] || File(q, d) in files[i..j];
      FindSound(entries, First(q));
    }
  }

  /** A file of this directory. */
  lemma FileEntryHolds(repo: Repo, files: seq<File>, i: nat, e: TreeEntry)
    requires i < |files| && !Nested(files[i].path) && e.mode.ModeBlob? && e.name == files[i].path
    requires e.id in repo.objects && repo.objects[e.id] == Blob(files[i].data)
    ensures EntryHolds(repo, files, i, i + 1, e) && SlashFree(e.name) && e.name == First(files[i].path)
  {
    Rejoined(e.name);
    assert files[i..i + 1] == [files[i]];
    forall q, d ensures File(q, d) in files[i..i + 1] <==> First(q) == e.name && UnderData(repo, e, q) == Some(d) {
      Rejoined(q);
    }
  }

  /** The group of a directory and its stripped files. */
  ghost predicate Grouped(files: seq<File>, i: nat, j: nat, prefix: string, sub: seq<File>)
  {
    && i <= j <= |files| && |sub| == j - i
    && forall k :: 0 <= k < |sub| ==> files[i + k] == File(prefix + sub[k].path, sub[k].data)
  }

  lemma GroupedIs(files: seq<File>, i: nat, j: nat, prefix: string, sub: seq<File>, r: string, d: string)
    requires Grouped(files, i, j, prefix, sub)
    ensures File(prefix + r, d) in files[i..j] <==> File(r, d) in sub
  {
    if File(prefix + r, d) in files[i..j] {
      var k :| 0 <= k < j - i && files[i..j][k] == File(prefix + r, d);
      assert files[i + k] == File(prefix + sub[k].path, sub[k].data);
      assert (prefix + r)[|prefix|..] == r && (prefix + sub[k].path)[|prefix|..] == sub[k].path;
    }
    if File(r, d) in sub {
      var k :| 0 <= k < |sub| && sub[k] == File(r, d);
      assert files[i..j][k] == files[i + k];
    }
  }

  lemma GroupedOnly(files: seq<File>, i: nat, j: nat, prefix: string, sub: seq<File>, f: File)
    requires Grouped(files, i, j, prefix, sub) && f in files[i..j]
    ensures prefix <= f.path
  {
    var k :| 0 <= k < j - i && files[i..j][k] == f;
    assert files[i + k] == File(prefix + sub[k].path, sub[k].data);
  }

  lemma GroupIsGrouped(files: seq<File>, i: nat, j: nat, prefix: string, sub: seq<File>)
    requires i <= j <= |files| && |sub| == j - i
    requires forall k :: i <= k < j ==> prefix <= files[k].path && sub[k - i] == Strip(prefix, files[k])
    ensures Grouped(files, i, j, prefix, sub)
  {
    forall k | 0 <= k < |sub| ensures files[i + k] == File(prefix + sub[k].path, sub[k].data) {
      var f := files[i + k];
      assert sub[k] == Strip(prefix, f) && f.path == prefix + f.path[|prefix|..];
    }
  }

  /** A directory below this one. */
  lemma TreeEntryHolds(repo: Repo, files: seq<File>, i: nat, j: nat, sub: seq<File>, e: TreeEntry)
    requires e.mode.ModeTree? && SlashFree(e.name) && Represents(repo, e.id, sub)
    requires Grouped(files, i, j, e.name + "/", sub)
    ensures EntryHolds(repo, files, i, j, e)
  {
    var prefix := e.name + "/";
    forall q, d ensures File(q, d) in files[i..j] <==> First(q) == e.name && UnderData(repo, e, q) == Some(d) {
      Rejoined(q);
      if prefix <= q {
        var rest := q[|prefix|..];
        assert q == prefix + rest;
        Joined(e.name, rest);
        GroupedIs(files, i, j, prefix, sub, rest, d);
        assert UnderData(repo, e, q) == DataAt(repo, e.id, rest);
      } else if File(q, d) in files[i..j] {
        GroupedOnly(files, i, j, prefix, sub, File(q, d));
      }
    }
  }

  /** No later file starts with the segment just handled. */
  lemma LaterFilesElsewhere(files: seq<File>, i: nat, j: nat, k: nat, name: string)
    requires Ascending(files, PathOf) && NoFileIsDirectory(files) && i < j <= k < |files| && SlashFree(name)
    requires files[i].path == name || (name + "/" <= files[i].path && !(name + "/" <= files[j].path))
    ensures First(files[k].path) != name
  {
    var path := files[k].path;
    Rejoined(path);
    assert files[i] in files && files[k] in files;
    assert Less(files[i].path, path);
    LessIrreflexive(path);
    var prefix := name + "/";
    assert First(path) == name && Nested(path) ==> prefix <= path;
    if files[i].path == name {
      assert prefix <= path ==> Policy.IsAncestor(name, path);
    } else {
      GroupIsContiguous(files, i, j, prefix, k);
      assert path == name ==> Policy.IsAncestor(path, files[i].path);
    }
  }

  lemma {:induction false} FindPermuted(a: seq<TreeEntry>, b: seq<TreeEntry>, name: string)
    requires NamesOk(a) && NamesOk(b) && (forall e :: e in a <==> e in b)
    ensures Find(a, name) == Find(b, name)
  {
    FindSound(a, name);
    FindSound(b, name);
    if Find(a, name).Some? {
      var e := Find(a, name).value;
      var i :| 0 <= i < |b| && b[i] == e;
      FindMember(b, i);
    }
  }

  lemma SortedEntries(entries: seq<TreeEntry>)
    requires NamesOk(entries) && forall e :: e in entries ==> PlainName(e.name)
    ensures var sorted := Sort(entries, GitKey);
            NamesOk(sorted) && GitOrdered(sorted) && forall e :: e in sorted <==> e in entries
  {
    forall i, j | 0 <= i < j < |entries| ensures GitKey(entries[i]) != GitKey(entries[j]) {
      KeysDiffer(entries[i], entries[j]);
    }
    SortAscending(entries, GitKey);
    var sorted := Sort(entries, GitKey);
    forall e ensures e in sorted <==> e in entries { SortMembers(entries, GitKey, e); }
    forall i | 0 <= i < |sorted| ensures SlashFree(sorted[i].name) { assert sorted[i] in entries; }
    forall i, j | 0 <= i < j < |sorted| ensures sorted[i].name != sorted[j].name {
      assert sorted[i] in entries && sorted[j] in entries && Less(GitKey(sorted[i]), GitKey(sorted[j]));
      LessIrreflexive(GitKey(sorted[i]));
    }
    GitOrderIsKeyOrder(sorted);
  }

  lemma LevelMeans(repo: Repo, more: Repo, entries: seq<TreeEntry>, sorted: seq<TreeEntry>, tree: Oid, q: string)
    requires Extends(repo, more) && NamesOk(entries) && NamesOk(sorted) && forall e :: e in sorted <==> e in entries
    requires forall e :: e in entries ==> EntryCanonical(repo, e, e.id + 1)
    requires tree in more.objects && more.objects[tree] == Tree(sorted)
    ensures DataAt(more, tree, q) == EntryData(repo, entries, q)
  {
    FindPermuted(entries, sorted, First(q));
    FindSound(entries, First(q));
    if Find(entries, First(q)).Some? {
      var e := Find(entries, First(q)).value;
      UnderStays(repo, more, e, e.id + 1, q);
    }
  }

  /** Writing the sorted entries gives a canonical tree that means the files. */
  lemma LevelDone(hash: Object -> Oid, repo: Repo, more: Repo, files: seq<File>, entries: seq<TreeEntry>, tree: Oid)
    requires IdealHash(hash) && Stored(hash, more) && Extends(repo, more) && LevelOk(repo, files, |files|, entries)
    requires tree in more.objects && more.objects[tree] == Tree(Sort(entries, GitKey))
    ensures Canonical(more, tree) && Represents(more, tree, files)
  {
    var sorted := Sort(entries, GitKey);
    SortedEntries(entries);
    assert tree == hash(Tree(sorted));
    forall e | e in sorted ensures EntryCanonical(more, e, tree) { EntryStays(repo, more, e, e.id + 1); }
    assert files[..|files|] == files;
    forall q, d ensures File(q, d) in files <==> DataAt(more, tree, q) == Some(d) {
      LevelMeans(repo, more, entries, sorted, tree, q);
    }
  }

  /** buildTree; depth bounds the paths and only serves termination. */
  method BuildLevel(hash: Object -> Oid, repo0: Repo, files: seq<File>, ghost depth: nat)
    returns (repo: Repo, tree: Oid)
    requires IdealHash(hash) && Stored(hash, repo0) && Ascending(files, PathOf) && NoFileIsDirectory(files)
    requires forall f :: f in files ==> |f.path| <= depth && Policy.NulFree(f.path)
    ensures Stored(hash, repo) && Extends(repo0, repo) && Canonical(repo, tree) && Represents(repo, tree, files)
    decreases depth
  {
    var entries: seq<TreeEntry> := [];
    var i := 0;
    repo := repo0;
    while i < |files|
      invariant Stored(hash, repo) && Extends(repo0, repo) && LevelOk(repo, files, i, entries)
      decreases |files| - i
    {
      var path := files[i].path;
      assert files[i] in files;
      FirstIsPlain(path);
      var id: Oid;
      ghost var before := repo;
      if !Nested(path) {
        repo, id := WriteObject(hash, repo, Blob(files[i].data));
        var e := TreeEntry(path, ModeBlob, id);
        FileEntryHolds(repo, files, i, e);
        forall k | i + 1 <= k < |files| ensures First(files[k].path) != e.name {
          LaterFilesElsewhere(files, i, i + 1, k, e.name);
        }
        AddEntry(before, repo, files, i, i + 1, entries, e);
        entries := entries + [e];
        i := i + 1;
      } else {
        var name := First(path);
        Rejoined(path);
        var j, sub := TakeGroup(files, i, name + "/");
        GroupAscends(files, i, j, name + "/", sub);
        GroupHasNoDirectoryFile(files, i, j, name + "/", sub);
        forall f | f in sub ensures |f.path| < depth && Policy.NulFree(f.path) {
          StrippedShorter(files, i, j, name + "/", sub, depth, f);
        }
        assert files[i] in files && |path| > 0;
        repo, id := BuildLevel(hash, repo, sub, depth - 1);
        var e := TreeEntry(name, ModeTree, id);
        NotEmpty(repo, id, sub);
        GroupIsGrouped(files, i, j, name + "/", sub);
        TreeEntryHolds(repo, files, i, j, sub, e);
        forall k | j <= k < |files| ensures First(files[k].path) != e.name {
          LaterFilesElsewhere(files, i, j, k, e.name);
        }
        AddEntry(before, repo, files, i, j, entries, e);
        entries := entries + [e];
        i := j;
      }
    }
    ghost var before := repo;
    SortedEntries(entries);
    repo, tree := WriteObject(hash, repo, Tree(Sort(entries, GitKey)));
    LevelDone(hash, before, repo, files, entries, tree);
  }

  lemma FirstIsPlain(path: string)
    requires Policy.NulFree(path)
    ensures PlainName(First(path)) && (!Nested(path) ==> PlainName(path))
  {
    Rejoined(path);
  }

  lemma StrippedShorter(files: seq<File>, i: nat, j: nat, prefix: string, sub: seq<File>, depth: nat, f: File)
    requires i <= j <= |files| && |sub| == j - i && prefix != "" && f in sub
    requires forall k :: i <= k < j ==> prefix <= files[k].path && sub[k - i] == Strip(prefix, files[k])
    requires forall f :: f in files ==> |f.path| <= depth && Policy.NulFree(f.path)
    ensures |f.path| < depth && Policy.NulFree(f.path)
  {
    var k :| 0 <= k < |sub| && sub[k] == f;
    assert files[i + k] in files;
  }

  lemma NotEmpty(repo: Repo, tree: Oid, files: seq<File>)
    requires Canonical(repo, tree) && Represents(repo, tree, files) && files != []
    ensures repo.objects[tree].entries != []
  {
    assert File(files[0].path, files[0].data) in files;
    assert DataAt(repo, tree, files[0].path) == Some(files[0].data);
  }
}
