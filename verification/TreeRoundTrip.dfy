/** Snapshot to tree and back, and the tree ID as a function of the content. */
module TreeRoundTrip {
  import opened GitGraph
  import opened TreeLookup
  import opened Wrappers
  import opened Ordering
  import opened SnapshotTree
  import opened TreeBuild
  import TreeDiff
  import Policy

  // ---- Building ----

  function Longest(files: seq<File>): nat
  {
    if files == [] then 0
    else if |files[0].path| > Longest(files[1..]) then |files[0].path| else Longest(files[1..])
  }

  lemma {:induction false} LongestBounds(files: seq<File>, f: File)
    requires f in files
    ensures |f.path| <= Longest(files)
  {
    if f != files[0] { LongestBounds(files[1..], f); }
  }

  lemma SortedSnapshot(host: Policy.Host, contentOk: string -> bool, files: seq<File>)
    requires SnapshotOk(host, contentOk, files)
    ensures var sorted := Sort(files, PathOf);
            Ascending(sorted, PathOf) && NoFileIsDirectory(sorted) && forall f :: f in sorted <==> f in files
  {
    SnapshotPathsDistinct(host, contentOk, files);
    SortAscending(files, PathOf);
    forall f ensures f in Sort(files, PathOf) <==> f in files { SortMembers(files, PathOf, f); }
  }

  /** BuildTree: a valid snapshot becomes a canonical tree that holds exactly its files. */
  method BuildTree(hash: Object -> Oid, host: Policy.Host, contentOk: string -> bool, repo0: Repo, files: seq<File>)
    returns (ok: bool, repo: Repo, tree: Oid)
    requires IdealHash(hash) && Stored(hash, repo0) && host.Sane()
    ensures ok <==> SnapshotOk(host, contentOk, files)
    ensures Stored(hash, repo) && Extends(repo0, repo)
    ensures ok ==> Canonical(repo, tree) && Represents(repo, tree, files)
  {
    repo, tree := repo0, 0;
    ok := ValidateSnapshot(host, contentOk, files);
    if !ok {
      return;
    }
    var sorted := Sort(files, PathOf);
    SortedSnapshot(host, contentOk, files);
    forall f | f in sorted ensures |f.path| <= Longest(sorted) && Policy.NulFree(f.path) { LongestBounds(sorted, f); }
    repo, tree := BuildLevel(hash, repo0, sorted, Longest(sorted));
  }

  // ---- The ID depends on the content alone ----

  lemma {:induction false} SomePath(repo: Repo, tree: Oid) returns (q: string)
    requires Canonical(repo, tree) && repo.objects[tree].entries != []
    ensures DataAt(repo, tree, q).Some?
    decreases tree
  {
    var entries := repo.objects[tree].entries;
    var e := entries[0];
    assert e in entries && EntryCanonical(repo, e, tree);
    FindMember(entries, 0);
    if e.mode.ModeBlob? {
      OneSegment(e.name);
      AtEntry(repo, tree, e, e.name);
      return e.name;
    }
    var rest := SomePath(repo, e.id);
    Joined(e.name, rest);
    AtEntry(repo, tree, e, e.name + "/" + rest);
    return e.name + "/" + rest;
  }

  /** An entry of a canonical tree, seen through the tree. */
  lemma ThroughEntry(repo: Repo, tree: Oid, e: TreeEntry, rest: string)
    requires IsTree(repo, tree) && NamesOk(repo.objects[tree].entries) && e in repo.objects[tree].entries
    requires e.mode.ModeTree?
    ensures DataAt(repo, tree, e.name + "/" + rest) == DataAt(repo, e.id, rest)
  {
    var entries := repo.objects[tree].entries;
    var i :| 0 <= i < |entries| && entries[i] == e;
    FindMember(entries, i);
    Joined(e.name, rest);
    AtEntry(repo, tree, e, e.name + "/" + rest);
  }

  lemma ThroughBlob(hash: Object -> Oid, repo: Repo, t: Oid, u: Oid, e: TreeEntry)
    requires Stored(hash, repo) && Canonical(repo, t) && Canonical(repo, u) && e in repo.objects[t].entries
    requires e.mode.ModeBlob?
    requires DataAt(repo, t, e.name) == DataAt(repo, u, e.name)
    ensures e in repo.objects[u].entries
  {
    var entries := repo.objects[t].entries;
    var i :| 0 <= i < |entries| && entries[i] == e;
    FindMember(entries, i);
    OneSegment(e.name);
    AtEntry(repo, t, e, e.name);
    assert EntryCanonical(repo, e, t) && DataAt(repo, u, e.name).Some?;
    FindSound(repo.objects[u].entries, e.name);
    var twin := Find(repo.objects[u].entries, e.name).value;
    AtEntry(repo, u, twin, e.name);
    assert hash(repo.objects[twin.id]) == twin.id && hash(repo.objects[e.id]) == e.id;
  }

  ghost predicate SameContent(repo: Repo, t: Oid, u: Oid) { forall q :: DataAt(repo, t, q) == DataAt(repo, u, q) }

  /** The other tree has a directory of the same name with the same content. */
  lemma TwinDirectory(repo: Repo, t: Oid, u: Oid, e: TreeEntry) returns (twin: TreeEntry)
    requires Canonical(repo, t) && Canonical(repo, u) && SameContent(repo, t, u) && e in repo.objects[t].entries
    requires e.mode.ModeTree?
    ensures twin in repo.objects[u].entries && twin.name == e.name && twin.mode.ModeTree?
    ensures SameContent(repo, e.id, twin.id)
  {
    assert EntryCanonical(repo, e, t);
    var rest := SomePath(repo, e.id);
    ThroughEntry(repo, t, e, rest);
    assert DataAt(repo, u, e.name + "/" + rest).Some?;
    var i :| 0 <= i < |repo.objects[t].entries| && repo.objects[t].entries[i] == e;
    Joined(e.name, rest);
    FindSound(repo.objects[u].entries, e.name);
    twin := Find(repo.objects[u].entries, e.name).value;
    AtEntry(repo, u, twin, e.name + "/" + rest);
    forall q ensures DataAt(repo, e.id, q) == DataAt(repo, twin.id, q) {
      ThroughEntry(repo, t, e, q);
      ThroughEntry(repo, u, twin, q);
    }
  }

  lemma {:induction false} EntriesShared(hash: Object -> Oid, repo: Repo, t: Oid, u: Oid)
    requires Stored(hash, repo) && Canonical(repo, t) && Canonical(repo, u) && SameContent(repo, t, u)
    ensures forall e :: e in repo.objects[t].entries ==> e in repo.objects[u].entries
    decreases t + u, 0
  {
    forall e | e in repo.objects[t].entries ensures e in repo.objects[u].entries {
      assert EntryCanonical(repo, e, t);
      if e.mode.ModeBlob? {
        ThroughBlob(hash, repo, t, u, e);
      } else {
        var twin := TwinDirectory(repo, t, u, e);
        assert EntryCanonical(repo, twin, u);
        SameContentSameTree(hash, repo, e.id, twin.id);
      }
    }
  }

  /** Canonical trees with the same path-to-content map are one tree: equal content, equal ID, whatever
      order the snapshot came in. */
  lemma {:induction false} SameContentSameTree(hash: Object -> Oid, repo: Repo, t: Oid, u: Oid)
    requires Stored(hash, repo) && Canonical(repo, t) && Canonical(repo, u) && SameContent(repo, t, u)
    ensures t == u
    decreases t + u, 1
  {
    EntriesShared(hash, repo, t, u);
    EntriesShared(hash, repo, u, t);
    GitOrderIsKeyOrder(repo.objects[t].entries);
    GitOrderIsKeyOrder(repo.objects[u].entries);
    AscendingUnique(repo.objects[t].entries, repo.objects[u].entries, GitKey);
    assert hash(repo.objects[t]) == t && hash(repo.objects[u]) == u;
  }

  /** Two snapshots with the same files get the same tree ID, in any order and at any time. */
  lemma SameFilesSameId(hash: Object -> Oid, early: Repo, late: Repo, t: Oid, u: Oid, files: seq<File>,
                        shuffled: seq<File>)
    requires Stored(hash, late) && Extends(early, late) && Canonical(early, t) && Canonical(late, u)
    requires Represents(early, t, files) && Represents(late, u, shuffled) && multiset(files) == multiset(shuffled)
    ensures t == u
  {
    CanonicalStays(early, late, t);
    forall q ensures DataAt(late, t, q) == DataAt(late, u, q) {
      DataStays(early, late, t, q);
      SameAnswer(late, t, u, files, shuffled, q, early);
    }
    SameContentSameTree(hash, late, t, u);
  }

  lemma SameAnswer(late: Repo, t: Oid, u: Oid, files: seq<File>, shuffled: seq<File>, q: string, early: Repo)
    requires Represents(early, t, files) && Represents(late, u, shuffled) && multiset(files) == multiset(shuffled)
    requires DataAt(late, t, q) == DataAt(early, t, q)
    ensures DataAt(late, t, q) == DataAt(late, u, q)
  {
    forall f ensures f in files <==> f in shuffled { assert f in files <==> f in multiset(files); }
    if DataAt(late, t, q).Some? { assert File(q, DataAt(late, t, q).value) in files; }
    if DataAt(late, u, q).Some? { assert File(q, DataAt(late, u, q).value) in shuffled; }
  }

  // ---- Reading ----

  /** The walk meets this content at path q below the entry, or the tree. */
  ghost predicate FileIn(repo: Repo, e: TreeEntry, q: string, d: string)
  {
    exists id :: HeldIn(repo, e, q, id) && id in repo.objects && repo.objects[id] == Blob(d)
  }

  ghost predicate FileAt(repo: Repo, tree: Oid, q: string, d: string)
  {
    exists id :: HeldAt(repo, tree, q, id) && id in repo.objects && repo.objects[id] == Blob(d)
  }

  ghost predicate FileAmong(repo: Repo, entries: seq<TreeEntry>, n: nat, q: string, d: string)
    requires n <= |entries|
  {
    exists j :: 0 <= j < n && FileIn(repo, entries[j], q, d)
  }

  /** The files a walk appends for one entry; with distinct slash-free names below, each path once. */
  ghost predicate EntryWalked(repo: Repo, e: TreeEntry, prefix: string, added: seq<File>)
  {
    && (forall p, d :: File(p, d) in added <==> prefix <= p && FileIn(repo, e, p[|prefix|..], d))
    && (TreeDiff.EntryNamed(repo, e) ==> DistinctKeys(added, PathOf))
  }

  ghost predicate Walked(repo: Repo, entries: seq<TreeEntry>, n: nat, prefix: string, added: seq<File>)
    requires n <= |entries|
  {
    && (forall p, d :: File(p, d) in added <==> prefix <= p && FileAmong(repo, entries, n, p[|prefix|..], d))
    && (AllNamed(repo, entries) ==> DistinctKeys(added, PathOf))
  }

  ghost predicate AllNamed(repo: Repo, entries: seq<TreeEntry>)
  {
    NamesOk(entries) && forall j :: 0 <= j < |entries| ==> TreeDiff.EntryNamed(repo, entries[j])
  }

  /** Everything a walk reads is there. */
  ghost predicate Readable(repo: Repo, e: TreeEntry)
    decreases e.id, 1
  {
    match e.mode
    case ModeBlob => e.id in repo.objects && repo.objects[e.id].Blob?
    case ModeTree => TreeReadable(repo, e.id)
    case ModeOther => false
  }

  ghost predicate TreeReadable(repo: Repo, tree: Oid)
    decreases tree, 0
  {
    IsTree(repo, tree) && forall e :: e in repo.objects[tree].entries ==> e.id < tree && Readable(repo, e)
  }

  method WalkEntry(repo: Repo, e: TreeEntry, prefix: string, files0: seq<File>) returns (ok: bool, files: seq<File>)
    requires Acyclic(repo)
    ensures files0 <= files && (ok <==> Readable(repo, e))
    ensures ok ==> EntryWalked(repo, e, prefix, files[|files0|..])
    decreases e.id, 1
  {
    var path := prefix + e.name;
    files := files0;
    match e.mode {
      case ModeTree =>
        ok, files := WalkTree(repo, e.id, path + "/", files0);
        if ok { TreeEntryWalked(repo, e, prefix, files[|files0|..]); }
      case ModeBlob =>
        if !(e.id in repo.objects && repo.objects[e.id].Blob?) {
          return false, files;
        }
        files := files + [File(path, repo.objects[e.id].data)];
        BlobEntryWalked(repo, e, prefix);
        assert files[|files0|..] == [File(path, repo.objects[e.id].data)];
        return true, files;
      case ModeOther =>
        return false, files;
    }
  }

  lemma BlobEntryWalked(repo: Repo, e: TreeEntry, prefix: string)
    requires e.mode.ModeBlob? && e.id in repo.objects && repo.objects[e.id].Blob?
    ensures EntryWalked(repo, e, prefix, [File(prefix + e.name, repo.objects[e.id].data)])
  {
    var data := repo.objects[e.id].data;
    assert (prefix + e.name)[|prefix|..] == e.name;
    forall p, d
      ensures File(p, d) in [File(prefix + e.name, data)] <==> prefix <= p && FileIn(repo, e, p[|prefix|..], d)
    {
      if prefix <= p { assert p == prefix + p[|prefix|..]; }
      if p == prefix + e.name && d == data { assert HeldIn(repo, e, e.name, e.id); }
    }
  }

  lemma TreeEntryWalked(repo: Repo, e: TreeEntry, prefix: string, added: seq<File>)
    requires Acyclic(repo) && e.mode.ModeTree? && IsTree(repo, e.id)
    requires Walked(repo, repo.objects[e.id].entries, |repo.objects[e.id].entries|, prefix + e.name + "/", added)
    ensures EntryWalked(repo, e, prefix, added)
  {
    var sub, entries := prefix + e.name + "/", repo.objects[e.id].entries;
    forall p, d ensures File(p, d) in added <==> prefix <= p && FileIn(repo, e, p[|prefix|..], d) {
      TreeDiff.Descend(e.name, prefix, p);
      if sub <= p {
        AmongIsAt(repo, e.id, p[|sub|..], d);
        AtIsIn(repo, e, p[|prefix|..], d);
      }
    }
    if TreeDiff.EntryNamed(repo, e) { NamedBelow(repo, e.id); }
  }

  lemma AtIsIn(repo: Repo, e: TreeEntry, q: string, d: string)
    requires e.mode.ModeTree? && e.name + "/" <= q
    ensures FileIn(repo, e, q, d) <==> FileAt(repo, e.id, q[|e.name| + 1..], d)
  {
    var rest := q[|e.name| + 1..];
    if FileIn(repo, e, q, d) {
      var id: Oid :| HeldIn(repo, e, q, id) && id in repo.objects && repo.objects[id] == Blob(d);
      assert HeldAt(repo, e.id, rest, id);
    }
    if FileAt(repo, e.id, rest, d) {
      var id: Oid :| HeldAt(repo, e.id, rest, id) && id in repo.objects && repo.objects[id] == Blob(d);
      assert HeldIn(repo, e, q, id);
    }
  }

  lemma AmongIsAt(repo: Repo, tree: Oid, q: string, d: string)
    requires IsTree(repo, tree)
    ensures FileAmong(repo, repo.objects[tree].entries, |repo.objects[tree].entries|, q, d) <==>
            FileAt(repo, tree, q, d)
  {
    var entries := repo.objects[tree].entries;
    if FileAmong(repo, entries, |entries|, q, d) {
      var j :| 0 <= j < |entries| && FileIn(repo, entries[j], q, d);
      var id: Oid :| HeldIn(repo, entries[j], q, id) && id in repo.objects && repo.objects[id] == Blob(d);
      assert HeldAt(repo, tree, q, id);
    }
    if FileAt(repo, tree, q, d) {
      var id: Oid :| HeldAt(repo, tree, q, id) && id in repo.objects && repo.objects[id] == Blob(d);
      var j :| 0 <= j < |entries| && HeldIn(repo, entries[j], q, id);
      assert FileIn(repo, entries[j], q, d);
    }
  }

  lemma NamedBelow(repo: Repo, tree: Oid)
    requires Acyclic(repo) && WellNamed(repo, tree) && IsTree(repo, tree)
    ensures AllNamed(repo, repo.objects[tree].entries)
  {
    forall j | 0 <= j < |repo.objects[tree].entries| ensures TreeDiff.EntryNamed(repo, repo.objects[tree].entries[j]) {
      TreeDiff.EntryIsNamed(repo, tree, j);
    }
  }

  /** A file of a well-named entry starts with the entry's name. */
  lemma FileStartsWithName(repo: Repo, e: TreeEntry, q: string, d: string)
    requires Acyclic(repo) && TreeDiff.EntryNamed(repo, e) && FileIn(repo, e, q, d)
    ensures First(q) == e.name
  {
    assert SomethingIn(repo, e, q);
    TreeDiff.EntrySomething(repo, e, q);
  }

  lemma WalkedMore(repo: Repo, entries: seq<TreeEntry>, prefix: string, i: nat, before: seq<File>, more: seq<File>)
    requires Acyclic(repo) && i < |entries|
    requires Walked(repo, entries, i, prefix, before) && EntryWalked(repo, entries[i], prefix, more)
    ensures Walked(repo, entries, i + 1, prefix, before + more)
  {
    var all := before + more;
    forall p, d ensures File(p, d) in all <==> prefix <= p && FileAmong(repo, entries, i + 1, p[|prefix|..], d) {
      assert File(p, d) in all <==> File(p, d) in before || File(p, d) in more;
    }
    if AllNamed(repo, entries) {
      forall f, g | f in before && g in more ensures f.path != g.path {
        NamesApart(repo, entries, prefix, i, before, more, f, g);
      }
      forall j, k | 0 <= j < k < |all| ensures all[j].path != all[k].path {
        if j < |before| <= k { assert before[j] in before && more[k - |before|] in more; }
      }
    }
  }

  lemma NamesApart(repo: Repo, entries: seq<TreeEntry>, prefix: string, i: nat, before: seq<File>, more: seq<File>,
                   f: File, g: File)
    requires Acyclic(repo) && i < |entries| && AllNamed(repo, entries)
    requires Walked(repo, entries, i, prefix, before) && EntryWalked(repo, entries[i], prefix, more) && f in before
    requires g in more
    ensures f.path != g.path
  {
    assert File(f.path, f.data) in before && File(g.path, g.data) in more;
    var j :| 0 <= j < i && FileIn(repo, entries[j], f.path[|prefix|..], f.data);
    FileStartsWithName(repo, entries[j], f.path[|prefix|..], f.data);
    FileStartsWithName(repo, entries[i], g.path[|prefix|..], g.data);
  }

  method WalkTree(repo: Repo, tree: Oid, prefix: string, files0: seq<File>) returns (ok: bool, files: seq<File>)
    requires Acyclic(repo)
    ensures files0 <= files && (ok <==> TreeReadable(repo, tree))
    ensures ok ==> Walked(repo, repo.objects[tree].entries, |repo.objects[tree].entries|, prefix, files[|files0|..])
    decreases tree, 0
  {
    files := files0;
    if !IsTree(repo, tree) {
      return false, files;
    }
    var entries := repo.objects[tree].entries;
    for i := 0 to |entries|
      invariant files0 <= files && Walked(repo, entries, i, prefix, files[|files0|..])
      invariant forall j :: 0 <= j < i ==> Readable(repo, entries[j])
    {
      assert entries[i] in entries;
      ghost var before := files;
      ok, files := WalkEntry(repo, entries[i], prefix, files);
      if !ok {
        return;
      }
      WalkedMore(repo, entries, prefix, i, before[|files0|..], files[|before|..]);
      assert files[|files0|..] == before[|files0|..] + files[|before|..];
    }
    return true, files;
  }

  /** The files are exactly what the walk over the tree meets. */
  ghost predicate ReadsAs(repo: Repo, tree: Oid, files: seq<File>)
  {
    forall q, d :: File(q, d) in files <==> FileAt(repo, tree, q, d)
  }

  lemma WalkedIsRead(repo: Repo, tree: Oid, files: seq<File>)
    requires IsTree(repo, tree) && Walked(repo, repo.objects[tree].entries, |repo.objects[tree].entries|, "", files)
    ensures ReadsAs(repo, tree, files)
  {
    forall q, d ensures File(q, d) in files <==> FileAt(repo, tree, q, d) {
      assert "" <= q && q[|""|..] == q;
      AmongIsAt(repo, tree, q, d);
    }
  }

  lemma ReadIsRepresented(repo: Repo, tree: Oid, files: seq<File>)
    requires Acyclic(repo) && WellNamed(repo, tree)
    ensures ReadsAs(repo, tree, files) <==> Represents(repo, tree, files)
  {
    forall q, d ensures FileAt(repo, tree, q, d) <==> DataAt(repo, tree, q) == Some(d) {
      forall id: Oid ensures HeldAt(repo, tree, q, id) <==> BlobAt(repo, tree, q) == Some(id) {
        HeldIsLookup(repo, tree, q, id);
      }
    }
  }

  lemma {:induction false} CanonicalIsReadable(repo: Repo, tree: Oid)
    requires Acyclic(repo) && Canonical(repo, tree)
    ensures TreeReadable(repo, tree) && WellNamed(repo, tree)
    decreases tree
  {
    forall e | e in repo.objects[tree].entries
      ensures e.id < tree && Readable(repo, e) && (e.mode.ModeTree? ==> WellNamed(repo, e.id))
    {
      assert EntryCanonical(repo, e, tree);
      if e.mode.ModeTree? { CanonicalIsReadable(repo, e.id); }
    }
  }

  /** A file list without repeated paths is the sorted form of any list of the same files. */
  lemma ReadOnce(host: Policy.Host, contentOk: string -> bool, files: seq<File>, g: seq<File>)
    requires Ascending(files, PathOf) && SnapshotOk(host, contentOk, g) && forall f :: f in files <==> f in g
    ensures files == Sort(g, PathOf) && SnapshotOk(host, contentOk, files)
  {
    SortedSnapshot(host, contentOk, g);
    AscendingUnique(files, Sort(g, PathOf), PathOf);
    forall i, j | 0 <= i < j < |files| ensures host.fold(files[i].path) != host.fold(files[j].path) {
      assert files[i] in g && files[j] in g && Less(PathOf(files[i]), PathOf(files[j]));
      LessIrreflexive(PathOf(files[i]));
    }
  }

  lemma SameMembers(repo: Repo, tree: Oid, files: seq<File>, g: seq<File>)
    requires ReadsAs(repo, tree, files) && ReadsAs(repo, tree, g)
    ensures forall f :: f in files <==> f in g
  {
    forall f ensures f in files <==> f in g {
      assert f == File(f.path, f.data);
      assert File(f.path, f.data) in files <==> File(f.path, f.data) in g;
    }
  }

  /** ReadSnapshot: sorted by path, exactly the files the walk meets, and refused when one path is met
      twice.  A tree of distinct slash-free names reads exactly when its files make a valid snapshot;
      a built tree reads back as the snapshot it was built from, sorted. */
  method ReadSnapshot(host: Policy.Host, contentOk: string -> bool, repo: Repo, tree: Oid)
    returns (ok: bool, files: seq<File>)
    requires Acyclic(repo)
    ensures ok ==>
              TreeReadable(repo, tree) && Ascending(files, PathOf) && ReadsAs(repo, tree, files) &&
                SnapshotOk(host, contentOk, files)
    ensures ok && WellNamed(repo, tree) ==> Represents(repo, tree, files)
    ensures TreeReadable(repo, tree) && WellNamed(repo, tree) ==>
              forall g :: Represents(repo, tree, g) && SnapshotOk(host, contentOk, g) ==>
                ok && files == Sort(g, PathOf)
    ensures forall g :: Canonical(repo, tree) && Represents(repo, tree, g) && SnapshotOk(host, contentOk, g)
                        ==> ok && files == Sort(g, PathOf)
  {
    ghost var canonical := Canonical(repo, tree);
    if canonical { CanonicalIsReadable(repo, tree); }
    var walked;
    ok, walked := WalkTree(repo, tree, "", []);
    files := [];
    if ok {
      assert walked[0..] == walked;
      WalkedIsRead(repo, tree, walked);
      files := Sort(walked, PathOf);
      SortOrdered(walked, PathOf);
      forall f ensures f in files <==> f in walked { SortMembers(walked, PathOf, f); }
      assert ReadsAs(repo, tree, files);
      ok := ValidateSnapshot(host, contentOk, files);
      if ok {
        SnapshotPathsDistinct(host, contentOk, files);
        OrderedAscends(files, PathOf);
      }
      if WellNamed(repo, tree) {
        NamedBelow(repo, tree);
        SortAscending(walked, PathOf);
        ReadIsRepresented(repo, tree, files);
        forall g | Represents(repo, tree, g) && SnapshotOk(host, contentOk, g)
          ensures files == Sort(g, PathOf) && SnapshotOk(host, contentOk, files)
        {
          ReadIsRepresented(repo, tree, g);
          SameMembers(repo, tree, files, g);
          ReadOnce(host, contentOk, files, g);
        }
      }
    }
  }
}
