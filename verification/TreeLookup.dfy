/** Paths in trees: which blob a tree holds at a path (internal/git/policy.go readBlobAt), as the one
    meaning every walk over trees is measured against. */
module TreeLookup {
  import opened GitGraph
  import opened Wrappers

  // ---- Segments ----

  predicate SlashFree(s: string) { forall k :: 0 <= k < |s| ==> s[k] != '/' }

  /** Where the first segment of a path ends. */
  function Slash(q: string): (n: nat)
    ensures n <= |q| && SlashFree(q[..n]) && (n < |q| ==> q[n] == '/')
  {
    if q == "" || q[0] == '/' then 0 else 1 + Slash(q[1..])
  }

  function First(q: string): string { q[..Slash(q)] }

  predicate Nested(q: string) { Slash(q) < |q| }

  function After(q: string): string
    requires Nested(q)
  {
    q[Slash(q) + 1..]
  }

  lemma SegmentEnd(q: string, n: nat)
    requires n <= |q| && SlashFree(q[..n]) && (n < |q| ==> q[n] == '/')
    ensures Slash(q) == n
  {
    assert forall k :: 0 <= k < n ==> q[..n][k] == q[k];
    assert forall k :: 0 <= k < Slash(q) ==> q[..Slash(q)][k] == q[k];
  }

  lemma OneSegment(name: string)
    requires SlashFree(name)
    ensures !Nested(name) && First(name) == name
  {
    assert name[..|name|] == name;
    SegmentEnd(name, |name|);
  }

  lemma Joined(name: string, rest: string)
    requires SlashFree(name)
    ensures var q := name + "/" + rest; Nested(q) && First(q) == name && After(q) == rest
  {
    var q := name + "/" + rest;
    assert q[..|name|] == name;
    SegmentEnd(q, |name|);
  }

  lemma Rejoined(q: string)
    ensures Nested(q) ==> q == First(q) + "/" + After(q)
    ensures !Nested(q) ==> q == First(q)
  {
  }

  // ---- Lookup ----

  function Find(entries: seq<TreeEntry>, name: string): Option<TreeEntry>
  {
    if entries == [] then None
    else if entries[0].name == name then Some(entries[0])
    else Find(entries[1..], name)
  }

  predicate NamesOk(entries: seq<TreeEntry>)
  {
    && (forall i :: 0 <= i < |entries| ==> SlashFree(entries[i].name))
    && forall i, j :: 0 <= i < j < |entries| ==> entries[i].name != entries[j].name
  }

  lemma {:induction false} FindMember(entries: seq<TreeEntry>, i: nat)
    requires NamesOk(entries) && i < |entries|
    ensures Find(entries, entries[i].name) == Some(entries[i])
  {
    if i > 0 { FindMember(entries[1..], i - 1); }
  }

  lemma {:induction false} FindSound(entries: seq<TreeEntry>, name: string)
    ensures match Find(entries, name)
            case None => forall e :: e in entries ==> e.name != name
            case Some(e) => e in entries && e.name == name
  {
    if entries != [] { FindSound(entries[1..], name); }
  }

  /** What the entry holds at the rest of a path that starts with its name. */
  function Under(repo: Repo, e: TreeEntry, q: string): Option<Oid>
    decreases |q|, 0
  {
    if !Nested(q) then (if e.mode.ModeBlob? then Some(e.id) else None)
    else if e.mode.ModeTree? then BlobAt(repo, e.id, After(q))
    else None
  }

  /** The blob a tree holds at a path. */
  function BlobAt(repo: Repo, tree: Oid, q: string): Option<Oid>
    decreases |q|, 1
  {
    if !IsTree(repo, tree) then None
    else match Find(repo.objects[tree].entries, First(q))
      case None => None
      case Some(e) => Under(repo, e, q)
  }

  /** One step of a lookup. */
  lemma AtEntry(repo: Repo, tree: Oid, e: TreeEntry, q: string)
    requires IsTree(repo, tree) && Find(repo.objects[tree].entries, First(q)) == Some(e)
    ensures BlobAt(repo, tree, q) == Under(repo, e, q)
    ensures !Nested(q) ==> BlobAt(repo, tree, q) == if e.mode.ModeBlob? then Some(e.id) else None
    ensures Nested(q) ==> BlobAt(repo, tree, q) == if e.mode.ModeTree? then BlobAt(repo, e.id, After(q)) else None
  {
  }

  /** The content a tree holds at a path. */
  function DataAt(repo: Repo, tree: Oid, p: string): Option<string>
  {
    match BlobAt(repo, tree, p)
    case None => None
    case Some(id) => if id in repo.objects && repo.objects[id].Blob? then Some(repo.objects[id].data) else None
  }

  // ---- What a tree holds, whatever its names are ----

  /** Hash references lead to objects written before. */
  ghost predicate Acyclic(repo: Repo)
  {
    forall x :: IsTree(repo, x) ==> forall e :: e in repo.objects[x].entries ==> e.id < x
  }

  /** The walk that joins names to paths meets blob id at path q below the entry. */
  ghost predicate HeldIn(repo: Repo, e: TreeEntry, q: string, id: Oid)
    decreases |q|, 0
  {
    match e.mode
    case ModeBlob => q == e.name && id == e.id
    case ModeTree => e.name + "/" <= q && HeldAt(repo, e.id, q[|e.name| + 1..], id)
    case ModeOther => false
  }

  ghost predicate HeldAt(repo: Repo, tree: Oid, q: string, id: Oid)
    decreases |q|, 1
  {
    IsTree(repo, tree) &&
    exists i :: 0 <= i < |repo.objects[tree].entries| && HeldIn(repo, repo.objects[tree].entries[i], q, id)
  }

  ghost predicate SomethingAt(repo: Repo, tree: Oid, q: string) { exists id :: HeldAt(repo, tree, q, id) }

  ghost predicate SomethingIn(repo: Repo, e: TreeEntry, q: string) { exists id :: HeldIn(repo, e, q, id) }

  /** No tree below repeats a name or uses a slash in one. */
  ghost predicate WellNamed(repo: Repo, tree: Oid)
    decreases tree
  {
    IsTree(repo, tree) ==>
      && NamesOk(repo.objects[tree].entries)
      && forall e :: e in repo.objects[tree].entries && e.mode.ModeTree? && e.id < tree ==> WellNamed(repo, e.id)
  }

  lemma HeldUnderName(repo: Repo, e: TreeEntry, q: string, id: Oid)
    requires SlashFree(e.name)
    requires e.mode.ModeTree? && Nested(q) ==>
              (HeldAt(repo, e.id, After(q), id) <==> BlobAt(repo, e.id, After(q)) == Some(id))
    ensures HeldIn(repo, e, q, id) <==> First(q) == e.name && Under(repo, e, q) == Some(id)
  {
    Rejoined(q);
    OneSegment(e.name);
    if e.mode.ModeTree? && e.name + "/" <= q {
      var rest := q[|e.name| + 1..];
      assert q == e.name + "/" + rest;
      Joined(e.name, rest);
    }
  }

  /** Where names are distinct and slash-free, the walk and the lookup agree. */
  lemma {:induction false} HeldIsLookup(repo: Repo, tree: Oid, q: string, id: Oid)
    requires Acyclic(repo) && WellNamed(repo, tree)
    ensures HeldAt(repo, tree, q, id) <==> BlobAt(repo, tree, q) == Some(id)
    decreases |q|
  {
    if IsTree(repo, tree) {
      var entries := repo.objects[tree].entries;
      forall i | 0 <= i < |entries|
        ensures HeldIn(repo, entries[i], q, id) <==>
                First(q) == entries[i].name && Under(repo, entries[i], q) == Some(id)
      {
        assert entries[i] in entries;
        if entries[i].mode.ModeTree? && Nested(q) { HeldIsLookup(repo, entries[i].id, After(q), id); }
        HeldUnderName(repo, entries[i], q, id);
      }
      FindSound(entries, First(q));
      if Find(entries, First(q)).Some? {
        var e := Find(entries, First(q)).value;
        var k :| 0 <= k < |entries| && entries[k] == e;
      }
    }
  }

  lemma SomethingIsLookup(repo: Repo, tree: Oid, q: string)
    requires Acyclic(repo) && WellNamed(repo, tree)
    ensures SomethingAt(repo, tree, q) <==> BlobAt(repo, tree, q).Some?
  {
    forall id: Oid ensures HeldAt(repo, tree, q, id) <==> BlobAt(repo, tree, q) == Some(id) {
      HeldIsLookup(repo, tree, q, id);
    }
  }

  /** A file is not a directory: no path holds a blob at or below another blob's path. */
  lemma {:induction false} BlobsDoNotNest(repo: Repo, tree: Oid, p: string, rest: string)
    requires BlobAt(repo, tree, p).Some?
    ensures BlobAt(repo, tree, p + "/" + rest).None?
    decreases |p|
  {
    var entries := repo.objects[tree].entries;
    var q := p + "/" + rest;
    Rejoined(p);
    FindSound(entries, First(p));
    if Nested(p) {
      assert q == First(p) + "/" + (After(p) + "/" + rest);
      Joined(First(p), After(p) + "/" + rest);
      var e := Find(entries, First(p)).value;
      BlobsDoNotNest(repo, e.id, After(p), rest);
    } else {
      Joined(p, rest);
    }
  }

  /** A directory on the way to a path cannot be read. */
  predicate Blocked(repo: Repo, tree: Oid, q: string)
    decreases |q|
  {
    if !IsTree(repo, tree) then true
    else match Find(repo.objects[tree].entries, First(q))
      case None => false
      case Some(e) => Nested(q) && e.mode.ModeTree? && Blocked(repo, e.id, After(q))
  }

  /** readBlobAt: the segment loop finds exactly what the tree holds, and fails exactly where a
      directory on the way is unreadable. */
  method ReadBlobAt(repo: Repo, tree0: Oid, path: string) returns (ok: bool, id: Option<Oid>)
    ensures ok <==> !Blocked(repo, tree0, path)
    ensures ok ==> id == BlobAt(repo, tree0, path)
  {
    var tree, rest := tree0, path;
    while true
      invariant BlobAt(repo, tree, rest) == BlobAt(repo, tree0, path)
      invariant Blocked(repo, tree, rest) == Blocked(repo, tree0, path)
      decreases |rest|
    {
      if !IsTree(repo, tree) {
        return false, None;
      }
      var entry := Find(repo.objects[tree].entries, First(rest));
      if entry.None? {
        return true, None;
      }
      var e := entry.value;
      if !Nested(rest) && e.mode.ModeBlob? {
        return true, Some(e.id);
      }
      if !Nested(rest) || !e.mode.ModeTree? {
        return true, None;
      }
      tree, rest := e.id, After(rest);
    }
  }
}
