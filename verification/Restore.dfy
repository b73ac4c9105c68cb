/** Putting protected paths back (RestoreProtected of internal/git/policy.go) and what the policy
    guarantees about pulls and publications (internal/notebook/commit.go, pull.go). */
module Restore {
  import opened GitGraph
  import opened Merging
  import opened TreeLookup
  import opened Wrappers
  import opened Ordering
  import opened SnapshotTree
  import opened TreeBuild
  import opened TreeDiff
  import opened TreeRoundTrip
  import Policy

  ghost predicate NamedOrUnder(path: string, names: seq<string>) { exists n :: n in names && Policy.Covers(n, path) }

  method IsNamedOrUnder(path: string, names: seq<string>) returns (b: bool)
    ensures b <==> NamedOrUnder(path, names)
  {
    for i := 0 to |names|
      invariant forall j :: 0 <= j < i ==> !Policy.Covers(names[j], path)
    {
      if path == names[i] || Policy.IsAncestor(names[i], path) {
        assert names[i] in names && Policy.Covers(names[i], path);
        return true;
      }
    }
    return false;
  }

  // ---- What a restore writes ----

  /** The local files that stay. */
  ghost function Kept(local: seq<File>, changed: seq<string>): seq<File>
  {
    if local == [] then []
    else
      var rest := Kept(local[..|local| - 1], changed);
      if NamedOrUnder(local[|local| - 1].path, changed) then rest else rest + [local[|local| - 1]]
  }

  /** The base files at the named paths. */
  ghost function PutBack(repo: Repo, base: Oid, changed: seq<string>): seq<File>
  {
    if changed == [] then []
    else
      var rest, path := PutBack(repo, base, changed[..|changed| - 1]), changed[|changed| - 1];
      if DataAt(repo, base, path).Some? then rest + [File(path, DataAt(repo, base, path).value)] else rest
  }

  ghost function RestoredFiles(repo: Repo, base: Oid, local: seq<File>, changed: seq<string>): seq<File>
  {
    Sort(Kept(local, changed) + PutBack(repo, base, changed), PathOf)
  }

  /** The base can be read at every named path. */
  ghost predicate NamedReadable(repo: Repo, base: Oid, changed: seq<string>)
  {
    forall p :: p in changed ==>
      !Blocked(repo, base, p) && (BlobAt(repo, base, p).Some? ==> DataAt(repo, base, p).Some?)
  }

  method ReadRestored(repo: Repo, base: Oid, changed: seq<string>) returns (ok: bool, restored: seq<File>)
    ensures ok <==> NamedReadable(repo, base, changed)
    ensures ok ==> restored == PutBack(repo, base, changed)
  {
    restored := [];
    for i := 0 to |changed|
      invariant restored == PutBack(repo, base, changed[..i])
      invariant NamedReadable(repo, base, changed[..i])
    {
      var path := changed[i];
      assert path in changed && changed[..i + 1][..i] == changed[..i] && changed[..i + 1][i] == path;
      assert changed[..i + 1] == changed[..i] + [path];
      var readable, id := ReadBlobAt(repo, base, path);
      if !readable {
        return false, restored;
      }
      if id.Some? {
        if !(id.value in repo.objects && repo.objects[id.value].Blob?) {
          return false, restored;
        }
        restored := restored + [File(path, repo.objects[id.value].data)];
      }
    }
    assert changed[..|changed|] == changed;
    return true, restored;
  }

  method KeepOthers(local: seq<File>, changed: seq<string>) returns (kept: seq<File>)
    ensures kept == Kept(local, changed)
  {
    kept := [];
    for i := 0 to |local|
      invariant kept == Kept(local[..i], changed)
    {
      assert local[..i + 1][..i] == local[..i] && local[..i + 1][i] == local[i];
      var named := IsNamedOrUnder(local[i].path, changed);
      if !named {
        kept := kept + [local[i]];
      }
    }
    assert local[..|local|] == local;
  }

  lemma {:induction false} KeptMembers(local: seq<File>, changed: seq<string>, f: File)
    ensures f in Kept(local, changed) <==> f in local && !NamedOrUnder(f.path, changed)
  {
    if local != [] {
      KeptMembers(local[..|local| - 1], changed, f);
      assert local == local[..|local| - 1] + [local[|local| - 1]];
    }
  }

  lemma {:induction false} PutBackMembers(repo: Repo, base: Oid, changed: seq<string>, f: File)
    ensures f in PutBack(repo, base, changed) <==> f.path in changed && DataAt(repo, base, f.path) == Some(f.data)
  {
    if changed != [] {
      PutBackMembers(repo, base, changed[..|changed| - 1], f);
      assert changed == changed[..|changed| - 1] + [changed[|changed| - 1]];
    }
  }

  /** What a restore leaves: the base content at the named paths, nothing else at or below them, the
      local files elsewhere. */
  ghost predicate Restored(repo: Repo, base: Oid, local: seq<File>, changed: seq<string>, files: seq<File>)
  {
    forall p, d :: File(p, d) in files <==>
      (File(p, d) in local && !NamedOrUnder(p, changed)) || (p in changed && DataAt(repo, base, p) == Some(d))
  }

  lemma RestoredFilesAre(repo: Repo, base: Oid, local: seq<File>, changed: seq<string>)
    ensures Restored(repo, base, local, changed, RestoredFiles(repo, base, local, changed))
  {
    var all := Kept(local, changed) + PutBack(repo, base, changed);
    forall p, d ensures File(p, d) in RestoredFiles(repo, base, local, changed) <==>
                        (File(p, d) in local && !NamedOrUnder(p, changed)) ||
                          (p in changed && DataAt(repo, base, p) == Some(d)) {
      SortMembers(all, PathOf, File(p, d));
      KeptMembers(local, changed, File(p, d));
      PutBackMembers(repo, base, changed, File(p, d));
    }
  }

  /** The restore can be done: the base is readable at the named paths, and the files make a snapshot. */
  ghost predicate CanRestore(host: Policy.Host, contentOk: string -> bool, repo: Repo, base: Oid, local: seq<File>,
                             changed: seq<string>)
  {
    NamedReadable(repo, base, changed) && SnapshotOk(host, contentOk, RestoredFiles(repo, base, local, changed))
  }

  /** RestoreProtected: fails exactly when the base cannot be read at a named path or the restored files
      are not a valid snapshot. */
  method RestoreProtected(host: Policy.Host, contentOk: string -> bool, repo: Repo, base: Oid, local: seq<File>,
                          changed: seq<string>)
    returns (ok: bool, files: seq<File>)
    ensures changed == [] ==> ok && files == local
    ensures changed != [] ==> (ok <==> CanRestore(host, contentOk, repo, base, local, changed))
    ensures changed != [] && ok ==> files == RestoredFiles(repo, base, local, changed)
    ensures ok ==> Restored(repo, base, local, changed, files)
  {
    if |changed| == 0 {
      return true, local;
    }
    var restored, kept;
    ok, restored := ReadRestored(repo, base, changed);
    if !ok {
      return false, [];
    }
    kept := KeepOthers(local, changed);
    files := Sort(kept + restored, PathOf);
    RestoredFilesAre(repo, base, local, changed);
    ok := ValidateSnapshot(host, contentOk, files);
  }

  // ---- When a restore succeeds ----

  /** A readable tree blocks no path and misses no blob. */
  lemma {:induction false} ReadableIsNotBlocked(repo: Repo, tree: Oid, q: string)
    requires TreeReadable(repo, tree)
    ensures !Blocked(repo, tree, q) && (BlobAt(repo, tree, q).Some? ==> DataAt(repo, tree, q).Some?)
    decreases |q|
  {
    var entries := repo.objects[tree].entries;
    FindSound(entries, First(q));
    match Find(entries, First(q)) {
      case None =>
      case Some(e) =>
        assert Readable(repo, e);
        AtEntry(repo, tree, e, q);
        if Nested(q) && e.mode.ModeTree? { ReadableIsNotBlocked(repo, e.id, After(q)); }
    }
  }

  /** Two files that no snapshot holds together. */
  predicate Clash(host: Policy.Host, f: File, g: File)
  {
    host.fold(f.path) == host.fold(g.path) || Policy.IsAncestor(f.path, g.path) || Policy.IsAncestor(g.path, f.path)
  }

  ghost predicate NoClash(host: Policy.Host, kept: seq<File>, back: seq<File>)
  {
    forall f, g :: f in kept && g in back ==> !Clash(host, f, g)
  }

  /** Two valid snapshots make one exactly when no file of one clashes with a file of the other. */
  lemma JoinedSnapshot(host: Policy.Host, contentOk: string -> bool, a: seq<File>, b: seq<File>)
    requires SnapshotOk(host, contentOk, a) && SnapshotOk(host, contentOk, b)
    ensures SnapshotOk(host, contentOk, a + b) <==> NoClash(host, a, b)
  {
    var all := a + b;
    if NoClash(host, a, b) {
      forall i, j | 0 <= i < j < |all| ensures host.fold(all[i].path) != host.fold(all[j].path) {
        if i < |a| <= j { assert !Clash(host, a[i], b[j - |a|]); }
      }
      forall f, g | f in all && g in all ensures !Policy.IsAncestor(f.path, g.path) {
        assert f in a && g in b ==> !Clash(host, f, g);
        assert f in b && g in a ==> !Clash(host, g, f);
      }
    }
    if SnapshotOk(host, contentOk, all) {
      forall f, g | f in a && g in b ensures !Clash(host, f, g) {
        var i :| 0 <= i < |a| && a[i] == f;
        var j :| 0 <= j < |b| && b[j] == g;
        assert all[i] == f && all[|a| + j] == g;
      }
    }
  }

  lemma {:induction false} KeptIsSnapshot(host: Policy.Host, contentOk: string -> bool, local: seq<File>,
                                          changed: seq<string>)
    requires SnapshotOk(host, contentOk, local)
    ensures SnapshotOk(host, contentOk, Kept(local, changed))
    decreases |local|
  {
    if local != [] {
      var front, last := local[..|local| - 1], local[|local| - 1];
      KeptIsSnapshot(host, contentOk, front, changed);
      forall f ensures f in Kept(front, changed) ==> f in front { KeptMembers(front, changed, f); }
      forall f | f in front ensures host.fold(f.path) != host.fold(last.path) {
        var i :| 0 <= i < |front| && front[i] == f;
        assert host.fold(local[i].path) != host.fold(local[|local| - 1].path);
      }
    }
  }

  lemma {:induction false} BackIsSnapshot(host: Policy.Host, contentOk: string -> bool, repo: Repo, base: Oid,
                                          baseFiles: seq<File>, changed: seq<string>)
    requires SnapshotOk(host, contentOk, baseFiles) && Represents(repo, base, baseFiles) && Distinct(changed)
    ensures SnapshotOk(host, contentOk, PutBack(repo, base, changed))
    decreases |changed|
  {
    forall f | f in PutBack(repo, base, changed) ensures f in baseFiles {
      PutBackMembers(repo, base, changed, f);
      assert f == File(f.path, f.data);
    }
    if changed != [] {
      var front := changed[..|changed| - 1];
      BackIsSnapshot(host, contentOk, repo, base, baseFiles, front);
      forall f | f in PutBack(repo, base, front) && changed[|changed| - 1] != f.path
        ensures DataAt(repo, base, changed[|changed| - 1]).Some? ==>
                  host.fold(f.path) != host.fold(changed[|changed| - 1])
      {
        PutBackMembers(repo, base, front, f);
        FoldsApart(host, contentOk, repo, base, baseFiles, f, changed[|changed| - 1]);
      }
      forall f ensures f in PutBack(repo, base, front) ==> f.path != changed[|changed| - 1] {
        PutBackMembers(repo, base, front, f);
      }
    }
  }

  lemma FoldsApart(host: Policy.Host, contentOk: string -> bool, repo: Repo, base: Oid, baseFiles: seq<File>, f: File,
                   p: string)
    requires SnapshotOk(host, contentOk, baseFiles) && Represents(repo, base, baseFiles)
    requires DataAt(repo, base, f.path) == Some(f.data) && f.path != p
    ensures DataAt(repo, base, p).Some? ==> host.fold(f.path) != host.fold(p)
  {
    if DataAt(repo, base, p).Some? {
      var g := File(p, DataAt(repo, base, p).value);
      assert f == File(f.path, f.data) && f in baseFiles && g in baseFiles;
      var i :| 0 <= i < |baseFiles| && baseFiles[i] == f;
      var j :| 0 <= j < |baseFiles| && baseFiles[j] == g;
    }
  }

  lemma SortedSnapshotOk(host: Policy.Host, contentOk: string -> bool, files: seq<File>)
    ensures SnapshotOk(host, contentOk, Sort(files, PathOf)) <==> SnapshotOk(host, contentOk, files)
  {
    var sorted := Sort(files, PathOf);
    SortElements(files, PathOf);
    forall f ensures f in sorted <==> f in files { SortMembers(files, PathOf, f); }
    if FoldsDiffer(host, files) { SameFolds(host, files, sorted); }
    if FoldsDiffer(host, sorted) { SameFolds(host, sorted, files); }
    FilesOk(host, contentOk, files);
    FilesOk(host, contentOk, sorted);
  }

  /** The rules of a snapshot that do not depend on the order, and the one on folded paths. */
  lemma FilesOk(host: Policy.Host, contentOk: string -> bool, files: seq<File>)
    ensures SnapshotOk(host, contentOk, files) <==>
            && (forall f :: f in files ==> host.valid(f.path) && contentOk(f.data))
            && FoldsDiffer(host, files) && NoFileIsDirectory(files)
  {
  }

  ghost predicate FoldsDiffer(host: Policy.Host, files: seq<File>)
  {
    forall i, j :: 0 <= i < j < |files| ==> host.fold(files[i].path) != host.fold(files[j].path)
  }

  /** Whether folded paths differ does not depend on the order. */
  lemma SameFolds(host: Policy.Host, a: seq<File>, b: seq<File>)
    requires multiset(a) == multiset(b) && FoldsDiffer(host, a)
    ensures FoldsDiffer(host, b)
  {
    forall i, j | 0 <= i < j < |b| ensures host.fold(b[i].path) != host.fold(b[j].path) {
      if b[i] == b[j] {
        TwiceIn(b, i, j);
        OnceOnly(host, a, b[i]);
      } else {
        assert b[i] in multiset(b) && b[j] in multiset(b);
        var k :| 0 <= k < |a| && a[k] == b[i];
        var m :| 0 <= m < |a| && a[m] == b[j];
      }
    }
  }

  lemma TwiceIn(b: seq<File>, i: nat, j: nat)
    requires i < j < |b| && b[i] == b[j]
    ensures multiset(b)[b[i]] >= 2
  {
    assert b == b[..j] + [b[j]] + b[j + 1..] && b[..j][i] == b[i];
    assert b[i] in multiset(b[..j]);
  }

  lemma {:induction false} OnceOnly(host: Policy.Host, a: seq<File>, f: File)
    requires FoldsDiffer(host, a)
    ensures multiset(a)[f] <= 1
    decreases |a|
  {
    if a != [] {
      var front, last := a[..|a| - 1], a[|a| - 1];
      assert a == front + [last];
      OnceOnly(host, front, f);
      forall i | 0 <= i < |front| ensures front[i] != last {
        assert host.fold(a[i].path) != host.fold(a[|a| - 1].path);
      }
    }
  }

  /** From a readable base and valid snapshots a restore succeeds exactly when no file that stays clashes
      with a file that is put back. */
  lemma RestoreSucceedsExactlyWhen(host: Policy.Host, contentOk: string -> bool, repo: Repo, base: Oid,
                                   baseFiles: seq<File>, local: seq<File>, changed: seq<string>)
    requires TreeReadable(repo, base) && Represents(repo, base, baseFiles) && Distinct(changed)
    requires SnapshotOk(host, contentOk, baseFiles) && SnapshotOk(host, contentOk, local)
    ensures CanRestore(host, contentOk, repo, base, local, changed) <==>
            forall f, g :: f in local && !NamedOrUnder(f.path, changed) && g in baseFiles && g.path in changed ==>
              !Clash(host, f, g)
  {
    var kept, back := Kept(local, changed), PutBack(repo, base, changed);
    forall p ensures !Blocked(repo, base, p) && (BlobAt(repo, base, p).Some? ==> DataAt(repo, base, p).Some?) {
      ReadableIsNotBlocked(repo, base, p);
    }
    KeptIsSnapshot(host, contentOk, local, changed);
    BackIsSnapshot(host, contentOk, repo, base, baseFiles, changed);
    JoinedSnapshot(host, contentOk, kept, back);
    SortedSnapshotOk(host, contentOk, kept + back);
    forall f ensures f in kept <==> f in local && !NamedOrUnder(f.path, changed) { KeptMembers(local, changed, f); }
    forall g ensures g in back <==> g in baseFiles && g.path in changed {
      PutBackMembers(repo, base, changed, g);
      assert g == File(g.path, g.data);
    }
  }

  // ---- Restoring re-establishes the base ----

  /** The list the detection returns. */
  ghost predicate Detected(host: Policy.Host, pol: PathPolicy, repo: Repo, local: Oid, base: Oid, changed: seq<string>)
  {
    forall p :: p in changed <==> Policy.Protected(host, pol, p) && BlobAt(repo, local, p) != BlobAt(repo, base, p)
  }

  /** A protected path that did not change is not swept away by a changed path above it. */
  lemma UnchangedIsNotBelow(host: Policy.Host, pol: PathPolicy, repo: Repo, local: Oid, base: Oid,
                            changed: seq<string>, p: string)
    requires Detected(host, pol, repo, local, base, changed)
    requires p !in changed && Policy.Protected(host, pol, p) && BlobAt(repo, local, p).Some?
    ensures !NamedOrUnder(p, changed)
  {
    forall n | n in changed ensures !Policy.Covers(n, p) {
      if Policy.IsAncestor(n, p) {
        var rest := p[|n| + 1..];
        assert p == n + "/" + rest;
        if BlobAt(repo, local, n).Some? {
          BlobsDoNotNest(repo, local, n, rest);
        } else {
          BlobsDoNotNest(repo, base, n, rest);
        }
      }
    }
  }

  /** After a restore of the detected paths every protected path is exactly as in the base, and every
      unprotected path not at or below a restored one is exactly as in the local snapshot. */
  lemma RestoreReestablishesBase(host: Policy.Host, pol: PathPolicy, repo: Repo, local: Oid, base: Oid,
                                 localFiles: seq<File>, changed: seq<string>, files: seq<File>)
    requires Represents(repo, local, localFiles) && Detected(host, pol, repo, local, base, changed)
    requires Restored(repo, base, localFiles, changed, files)
    ensures forall p, d :: Policy.Protected(host, pol, p) ==>
              (File(p, d) in files <==> DataAt(repo, base, p) == Some(d))
    ensures forall p, d :: !NamedOrUnder(p, changed) ==> (File(p, d) in files <==> File(p, d) in localFiles)
  {
    forall p, d | Policy.Protected(host, pol, p) ensures File(p, d) in files <==> DataAt(repo, base, p) == Some(d) {
      if p in changed {
        assert Policy.Covers(p, p) && NamedOrUnder(p, changed);
      } else {
        assert DataAt(repo, local, p) == DataAt(repo, base, p);
        if DataAt(repo, base, p) == Some(d) { UnchangedIsNotBelow(host, pol, repo, local, base, changed, p); }
      }
    }
    forall p, d | !NamedOrUnder(p, changed) ensures File(p, d) in files <==> File(p, d) in localFiles {
      if p in changed { assert Policy.Covers(p, p); }
    }
  }

  ghost predicate BlobsPresent(repo: Repo, tree: Oid)
  {
    forall p :: BlobAt(repo, tree, p).Some? ==> DataAt(repo, tree, p).Some?
  }

  /** Rerunning the detection on the restored tree finds nothing. */
  lemma DetectionIsQuietAfterRestore(host: Policy.Host, pol: PathPolicy, repo: Repo, restored: Oid, base: Oid,
                                     files: seq<File>, changed: seq<string>)
    requires ContentAddressed(repo) && BlobsPresent(repo, restored) && BlobsPresent(repo, base)
    requires Represents(repo, restored, files)
    requires forall p, d :: Policy.Protected(host, pol, p) ==>
              (File(p, d) in files <==> DataAt(repo, base, p) == Some(d))
    requires Detected(host, pol, repo, restored, base, changed)
    ensures changed == []
  {
    assert changed == [] || changed[0] in changed;
    forall p | Policy.Protected(host, pol, p) ensures BlobAt(repo, restored, p) == BlobAt(repo, base, p) {
      if DataAt(repo, base, p).Some? { assert File(p, DataAt(repo, base, p).value) in files; }
      if DataAt(repo, restored, p).Some? { assert File(p, DataAt(repo, restored, p).value) in files; }
      if BlobAt(repo, restored, p).Some? && BlobAt(repo, base, p).Some? {
        assert repo.objects[BlobAt(repo, restored, p).value] == repo.objects[BlobAt(repo, base, p).value];
      }
    }
  }

  // ---- The two callers ----

  /** The tree holds the base content at every protected path, the local content wherever no changed
      path stands at or above, and nothing else. */
  ghost predicate Reestablished(host: Policy.Host, pol: PathPolicy, repo: Repo, tree: Oid, before: Repo, base: Oid,
                                local: Oid, changed: seq<string>)
  {
    && (forall p :: Policy.Protected(host, pol, p) ==> DataAt(repo, tree, p) == DataAt(before, base, p))
    && (forall p :: !NamedOrUnder(p, changed) ==> DataAt(repo, tree, p) == DataAt(before, local, p))
    && forall p :: NamedOrUnder(p, changed) && !Policy.Protected(host, pol, p) ==> DataAt(repo, tree, p).None?
  }

  lemma FilesToData(repo: Repo, tree: Oid, files: seq<File>, before: Repo, other: Oid, p: string)
    requires Represents(repo, tree, files) && forall d :: File(p, d) in files <==> DataAt(before, other, p) == Some(d)
    ensures DataAt(repo, tree, p) == DataAt(before, other, p)
  {
    if DataAt(repo, tree, p).Some? { assert File(p, DataAt(repo, tree, p).value) in files; }
    if DataAt(before, other, p).Some? { assert File(p, DataAt(before, other, p).value) in files; }
  }

  /** Restoring the named paths and building the tree. */
  method BuildRestored(hash: Object -> Oid, host: Policy.Host, contentOk: string -> bool, pol: PathPolicy, repo0: Repo,
                       base: Oid, local: seq<File>, localTree: Oid, changed: seq<string>)
    returns (ok: bool, repo: Repo, tree: Oid)
    requires IdealHash(hash) && Stored(hash, repo0) && host.Sane() && Represents(repo0, localTree, local)
    requires changed != []
    ensures Stored(hash, repo) && Extends(repo0, repo)
    ensures ok <==> CanRestore(host, contentOk, repo0, base, local, changed)
    ensures ok ==> Canonical(repo, tree)
    ensures ok && Detected(host, pol, repo0, localTree, base, changed) ==>
              Reestablished(host, pol, repo, tree, repo0, base, localTree, changed)
  {
    repo, tree := repo0, 0;
    var files;
    ok, files := RestoreProtected(host, contentOk, repo0, base, local, changed);
    if !ok {
      return;
    }
    ok, repo, tree := BuildTree(hash, host, contentOk, repo0, files);
    if Detected(host, pol, repo0, localTree, base, changed) {
      FilesReestablish(host, pol, repo, tree, repo0, base, local, localTree, changed, files);
    }
  }

  lemma FilesReestablish(host: Policy.Host, pol: PathPolicy, repo: Repo, tree: Oid, repo0: Repo, base: Oid,
                         local: seq<File>,
                         localTree: Oid, changed: seq<string>, files: seq<File>)
    requires Represents(repo0, localTree, local) && Detected(host, pol, repo0, localTree, base, changed)
    requires Restored(repo0, base, local, changed, files) && Represents(repo, tree, files)
    ensures Reestablished(host, pol, repo, tree, repo0, base, localTree, changed)
  {
    RestoreReestablishesBase(host, pol, repo0, localTree, base, local, changed, files);
    forall p | Policy.Protected(host, pol, p) ensures DataAt(repo, tree, p) == DataAt(repo0, base, p) {
      FilesToData(repo, tree, files, repo0, base, p);
    }
    forall p | !NamedOrUnder(p, changed) ensures DataAt(repo, tree, p) == DataAt(repo0, localTree, p) {
      FilesToData(repo, tree, files, repo0, localTree, p);
    }
    forall p | NamedOrUnder(p, changed) && !Policy.Protected(host, pol, p) ensures DataAt(repo, tree, p).None? {
      forall d ensures DataAt(repo, tree, p) != Some(d) { assert File(p, d) !in files; }
    }
  }

  /** The list ChangedProtected returns for two trees of distinct names. */
  ghost predicate DetectedSorted(host: Policy.Host, pol: PathPolicy, repo: Repo, local: Oid, base: Oid,
                                 changed: seq<string>)
  {
    Ascending(changed, Self) && Detected(host, pol, repo, local, base, changed)
  }

  datatype Verdict = Passed | Refused(changed: seq<string>, tree: Oid) | Broken

  /** enforcePolicy over a built local tree and a baseline that repeats no name: a commit passes exactly
      when no protected path changed; a refusal names the changed paths and materializes a tree with all
      of them back at the baseline; it breaks only when a tree cannot be read or the restored files are
      not a valid snapshot. */
  method EnforcePolicy(hash: Object -> Oid, host: Policy.Host, contentOk: string -> bool, pol: PathPolicy, repo0: Repo,
                       base: Oid, local: seq<File>, localTree: Oid) returns (verdict: Verdict, repo: Repo)
    requires Policy.WellFormed(pol) && host.Sane() && IdealHash(hash) && Stored(hash, repo0)
    requires Canonical(repo0, localTree) && Represents(repo0, localTree, local)
    ensures Stored(hash, repo) && Extends(repo0, repo)
    ensures verdict.Passed? && WellNamed(repo0, base) ==> Detected(host, pol, repo0, localTree, base, [])
    ensures TreeSound(repo0, base) && WellNamed(repo0, base) && Detected(host, pol, repo0, localTree, base, []) ==>
              verdict.Passed?
    ensures verdict.Refused? && WellNamed(repo0, base) ==>
              && verdict.changed != [] && DetectedSorted(host, pol, repo0, localTree, base, verdict.changed)
              && Reestablished(host, pol, repo, verdict.tree, repo0, base, localTree, verdict.changed)
    ensures verdict.Broken? && TreeSound(repo0, base) && WellNamed(repo0, base) ==>
              exists changed :: DetectedSorted(host, pol, repo0, localTree, base, changed)
                                && !CanRestore(host, contentOk, repo0, base, local, changed)
  {
    repo := repo0;
    StoredIsAcyclic(hash, repo0);
    CanonicalIsReadable(repo0, localTree);
    ReadableIsSound(repo0, localTree);
    var ok, changed := ChangedProtected(host, pol, repo0, localTree, base);
    if !ok {
      return Broken, repo;
    }
    if |changed| == 0 {
      return Passed, repo;
    }
    assert changed[0] in changed;
    var tree;
    ok, repo, tree := BuildRestored(hash, host, contentOk, pol, repo0, base, local, localTree, changed);
    return if ok then Refused(changed, tree) else Broken, repo;
  }

  lemma {:induction false} ReadableIsSound(repo: Repo, tree: Oid)
    requires TreeReadable(repo, tree)
    ensures TreeSound(repo, tree)
    decreases tree
  {
    forall e | e in repo.objects[tree].entries
      ensures !e.mode.ModeOther? && (e.mode.ModeTree? ==> e.id < tree && TreeSound(repo, e.id))
    {
      assert Readable(repo, e);
      if e.mode.ModeTree? { ReadableIsSound(repo, e.id); }
    }
  }

  /** pinProtected: the tree a pull merges as its local side has the baseline at every protected path. */
  method PinProtected(hash: Object -> Oid, host: Policy.Host, contentOk: string -> bool, pol: PathPolicy, repo0: Repo,
                      base: Oid, local: seq<File>, localTree: Oid)
    returns (ok: bool, repo: Repo, tree: Oid, ghost changed: seq<string>)
    requires Policy.WellFormed(pol) && host.Sane() && IdealHash(hash) && Stored(hash, repo0)
    requires Canonical(repo0, localTree) && Represents(repo0, localTree, local)
    ensures Stored(hash, repo) && Extends(repo0, repo)
    ensures ok && WellNamed(repo0, base) ==>
              && DetectedSorted(host, pol, repo0, localTree, base, changed)
              && Reestablished(host, pol, repo, tree, repo0, base, localTree, changed)
    ensures ok && changed == [] ==> tree == localTree
    ensures !ok && TreeSound(repo0, base) && WellNamed(repo0, base) ==>
              && DetectedSorted(host, pol, repo0, localTree, base, changed)
              && !CanRestore(host, contentOk, repo0, base, local, changed)
  {
    repo, tree := repo0, localTree;
    StoredIsAcyclic(hash, repo0);
    CanonicalIsReadable(repo0, localTree);
    ReadableIsSound(repo0, localTree);
    var found;
    ok, found := ChangedProtected(host, pol, repo0, localTree, base);
    changed := found;
    if !ok || |found| == 0 {
      if ok && WellNamed(repo0, base) { UnchangedIsEstablished(host, pol, repo0, localTree, base); }
      return;
    }
    ok, repo, tree := BuildRestored(hash, host, contentOk, pol, repo0, base, local, localTree, found);
  }

  lemma UnchangedIsEstablished(host: Policy.Host, pol: PathPolicy, repo: Repo, local: Oid, base: Oid)
    requires Detected(host, pol, repo, local, base, [])
    ensures Reestablished(host, pol, repo, local, repo, base, local, [])
  {
    forall p | Policy.Protected(host, pol, p) ensures DataAt(repo, local, p) == DataAt(repo, base, p) {
      assert p !in [] && BlobAt(repo, local, p) == BlobAt(repo, base, p);
    }
  }

  // ---- Publications and first pulls ----

  /** A conflict-free three-way merge, path by path. */
  ghost predicate CleanMerge(repo: Repo, base: Oid, local: Oid, remote: Oid, merged: Oid)
  {
    forall p :: MergesAt(DataAt(repo, base, p), DataAt(repo, local, p), DataAt(repo, remote, p),
      DataAt(repo, merged, p))
  }

  /** A tree's files by path. */
  ghost predicate FilesOf(repo: Repo, tree: Oid, files: Files) { forall p :: DataAt(repo, tree, p) == At(files, p) }

  /** What a commit or an encryption root works with once the check passed is what the publication
      protocol starts a call with. */
  lemma PassedCheckIsPassedInput(host: Policy.Host, pol: PathPolicy, repo: Repo, base: Oid, local: Oid,
                                 baseFiles: Files, localFiles: Files)
    requires Detected(host, pol, repo, local, base, []) && FilesOf(repo, base, baseFiles)
    requires FilesOf(repo, local, localFiles)
    ensures Input(baseFiles, localFiles, host, pol).Passed()
  {
    forall p | Policy.Protected(host, pol, p) ensures At(localFiles, p) == At(baseFiles, p) {
      assert p !in [] && BlobAt(repo, local, p) == BlobAt(repo, base, p);
      assert DataAt(repo, local, p) == At(localFiles, p) && DataAt(repo, base, p) == At(baseFiles, p);
    }
  }

  datatype Reason = NotInNotebook | DiffersFromNotebook

  datatype Refusal = Refusal(path: string, reason: Reason)

  /** Why a first pull refuses a local file, if it does. */
  ghost function RefusalOf(host: Policy.Host, pol: PathPolicy, accepted: Files, seeding: bool, f: File): Option<Reason>
  {
    if Policy.Protected(host, pol, f.path) then (if f.path in accepted then None else Some(NotInNotebook))
    else if seeding then None
    else if f.path !in accepted then Some(NotInNotebook)
    else if accepted[f.path] != f.data then Some(DiffersFromNotebook)
    else None
  }

  function RefusedPath(r: Refusal): string { r.path }

  /** guardFirstPull over the accepted files: names exactly the offending files, each with its reason. */
  method GuardFirstPull(host: Policy.Host, pol: PathPolicy, pulled: bool, local: seq<File>, accepted: Files,
                        seeding: bool)
    returns (refused: seq<Refusal>)
    requires Policy.WellFormed(pol)
    ensures pulled ==> refused == []
    ensures Ordered(refused, RefusedPath)
    ensures !pulled ==>
              forall r :: r in refused <==>
                exists f :: f in local && f.path == r.path &&
                            RefusalOf(host, pol, accepted, seeding, f) == Some(r.reason)
    ensures !pulled ==> (refused == [] <==> Admitted(host, pol, accepted, seeding, local))
  {
    refused := [];
    if pulled || |local| == 0 {
      return;
    }
    for i := 0 to |local|
      invariant forall r :: r in refused <==>
                exists f :: f in local[..i] && f.path == r.path &&
                            RefusalOf(host, pol, accepted, seeding, f) == Some(r.reason)
    {
      var f := local[i];
      assert local[..i + 1] == local[..i] + [f];
      var reason: Option<Reason> := None;
      var guarded := Policy.Protects(host, pol, f.path);
      if guarded && f.path in accepted {
      } else if guarded {
        reason := Some(NotInNotebook);
      } else if seeding {
      } else if f.path !in accepted {
        reason := Some(NotInNotebook);
      } else if accepted[f.path] != f.data {
        reason := Some(DiffersFromNotebook);
      }
      assert reason == RefusalOf(host, pol, accepted, seeding, f);
      if reason.Some? {
        refused := refused + [Refusal(f.path, reason.value)];
      }
    }
    assert local[..|local|] == local;
    ghost var found := refused;
    refused := Sort(refused, RefusedPath);
    SortOrdered(found, RefusedPath);
    forall r ensures r in refused <==> r in found { SortMembers(found, RefusedPath, r); }
    AdmittedExactlyWhen(host, pol, accepted, seeding, local);
    NothingRefused(host, pol, accepted, seeding, local, refused);
  }

  lemma NothingRefused(host: Policy.Host, pol: PathPolicy, accepted: Files, seeding: bool, local: seq<File>,
                       refused: seq<Refusal>)
    requires forall r :: r in refused <==>
               exists f :: f in local && f.path == r.path &&
                           RefusalOf(host, pol, accepted, seeding, f) == Some(r.reason)
    ensures refused == [] <==> forall f :: f in local ==> RefusalOf(host, pol, accepted, seeding, f).None?
  {
    assert refused == [] || refused[0] in refused;
    forall f | f in local && RefusalOf(host, pol, accepted, seeding, f).Some? ensures refused != [] {
      assert Refusal(f.path, RefusalOf(host, pol, accepted, seeding, f).value) in refused;
    }
  }

  /** A directory a first pull takes: every protected file in it is in the notebook, whatever its content;
      an empty notebook takes the rest as it is, any other must hold the same bytes. */
  ghost predicate Admitted(host: Policy.Host, pol: PathPolicy, accepted: Files, seeding: bool, local: seq<File>)
  {
    && (forall f :: f in local && Policy.Protected(host, pol, f.path) ==> f.path in accepted)
    && (!seeding ==>
          forall f :: f in local && !Policy.Protected(host, pol, f.path) ==> At(accepted, f.path) == Some(f.data))
  }

  /** What is refused, and as what. */
  lemma AdmittedExactlyWhen(host: Policy.Host, pol: PathPolicy, accepted: Files, seeding: bool, local: seq<File>)
    ensures (forall f :: f in local ==> RefusalOf(host, pol, accepted, seeding, f).None?) <==>
            Admitted(host, pol, accepted, seeding, local)
    ensures forall f :: RefusalOf(host, pol, accepted, seeding, f) == Some(DiffersFromNotebook) <==>
              && !seeding && !Policy.Protected(host, pol, f.path)
              && f.path in accepted && At(accepted, f.path) != Some(f.data)
    ensures forall f :: RefusalOf(host, pol, accepted, seeding, f) == Some(NotInNotebook) <==>
              f.path !in accepted && (Policy.Protected(host, pol, f.path) || !seeding)
  {
  }

  ghost predicate NoFiles(repo: Repo, tree: Oid) { forall p :: BlobAt(repo, tree, p).None? }

  /** A clean first pull, admitted by the guard and merged after pinning the protected paths to the
      empty baseline, yields exactly the remote tree, or exactly the local files when the remote is empty. */
  lemma FirstPull(host: Policy.Host, pol: PathPolicy, before: Repo, empty: Oid, local: Oid, localFiles: seq<File>,
                  changed: seq<string>,
                  repo: Repo, pinned: Oid, remote: Oid, accepted: Files, seeding: bool, merged: Oid, p: string)
    requires NoFiles(before, empty) && NoFiles(repo, empty) && BlobsPresent(before, local)
    requires Represents(before, local, localFiles) && FilesOf(repo, remote, accepted) && (seeding ==> accepted == map[])
    requires forall f :: f in localFiles ==> RefusalOf(host, pol, accepted, seeding, f).None?
    requires Detected(host, pol, before, local, empty, changed)
    requires Reestablished(host, pol, repo, pinned, before, empty, local, changed)
    requires CleanMerge(repo, empty, pinned, remote, merged)
    ensures DataAt(repo, merged, p) == if seeding then DataAt(before, local, p) else DataAt(repo, remote, p)
  {
    assert DataAt(repo, empty, p).None? && DataAt(before, empty, p).None?;
    if seeding {
      NothingPinned(host, pol, before, local, empty, localFiles, changed, accepted);
      assert !NamedOrUnder(p, changed);
    } else if DataAt(repo, pinned, p).Some? {
      assert !Policy.Protected(host, pol, p) && !NamedOrUnder(p, changed);
      var f := File(p, DataAt(repo, pinned, p).value);
      assert f in localFiles && RefusalOf(host, pol, accepted, seeding, f).None?;
    }
  }

  /** A seeding directory holds no protected file, so nothing is pinned. */
  lemma NothingPinned(host: Policy.Host, pol: PathPolicy, repo: Repo, local: Oid, empty: Oid, localFiles: seq<File>,
                      changed: seq<string>,
                      accepted: Files)
    requires NoFiles(repo, empty) && BlobsPresent(repo, local) && Represents(repo, local, localFiles)
    requires accepted == map[]
    requires forall f :: f in localFiles ==> RefusalOf(host, pol, accepted, true, f).None?
    requires Detected(host, pol, repo, local, empty, changed)
    ensures changed == []
  {
    assert changed == [] || changed[0] in changed;
    forall n ensures n !in changed {
      if BlobAt(repo, local, n).Some? {
        var f := File(n, DataAt(repo, local, n).value);
        assert f in localFiles && RefusalOf(host, pol, accepted, true, f).None?;
      }
    }
  }
}
