/** The pruned walk of internal/git/policy.go that names the protected paths two trees differ on. */
module TreeDiff {
  import opened GitGraph
  import opened TreeLookup
  import opened Wrappers
  import Policy
  import Ordering

  type Host = Policy.Host
  type PathPolicy = Policy.PathPolicy

  // ---- One side ----

  /** The entry, standing in directory prefix, holds a blob at path p. */
  ghost predicate SideHas(repo: Repo, e: TreeEntry, prefix: string, p: string)
  {
    prefix <= p && SomethingIn(repo, e, p[|prefix|..])
  }

  ghost predicate TreeHas(repo: Repo, tree: Oid, prefix: string, p: string)
  {
    prefix <= p && SomethingAt(repo, tree, p[|prefix|..])
  }

  ghost predicate AmongHas(repo: Repo, entries: seq<TreeEntry>, n: nat, prefix: string, p: string)
    requires n <= |entries|
  {
    exists j :: 0 <= j < n && SideHas(repo, entries[j], prefix, p)
  }

  lemma BlobSide(repo: Repo, e: TreeEntry, prefix: string, p: string)
    requires e.mode.ModeBlob?
    ensures SideHas(repo, e, prefix, p) <==> p == prefix + e.name
  {
    assert (prefix + e.name)[|prefix|..] == e.name;
    if prefix <= p { assert p == prefix + p[|prefix|..]; }
    if p == prefix + e.name { assert HeldIn(repo, e, e.name, e.id); }
  }

  /** Descending into a directory: paths that start with its name and a slash. */
  lemma Descend(name: string, prefix: string, p: string)
    ensures var sub := prefix + name + "/";
            && (sub <= p <==> prefix <= p && name + "/" <= p[|prefix|..])
            && (sub <= p ==> p[|sub|..] == p[|prefix|..][|name| + 1..])
  {
    var sub := prefix + name + "/";
    if sub <= p {
      assert p[|prefix|..][..|name| + 1] == sub[|prefix|..] == name + "/";
    }
    if prefix <= p && name + "/" <= p[|prefix|..] {
      assert p == prefix + (name + "/" + p[|prefix|..][|name| + 1..]);
    }
  }

  lemma TreeSide(repo: Repo, e: TreeEntry, prefix: string, p: string)
    requires e.mode.ModeTree?
    ensures SideHas(repo, e, prefix, p) <==> TreeHas(repo, e.id, prefix + e.name + "/", p)
  {
    Descend(e.name, prefix, p);
    var sub := prefix + e.name + "/";
    if SideHas(repo, e, prefix, p) {
      var id: Oid :| HeldIn(repo, e, p[|prefix|..], id);
      assert HeldAt(repo, e.id, p[|sub|..], id);
    }
    if TreeHas(repo, e.id, sub, p) {
      var id: Oid :| HeldAt(repo, e.id, p[|sub|..], id);
      assert HeldIn(repo, e, p[|prefix|..], id);
    }
  }

  lemma TreeIsAmong(repo: Repo, tree: Oid, prefix: string, p: string)
    requires IsTree(repo, tree)
    ensures TreeHas(repo, tree, prefix, p) <==>
            AmongHas(repo, repo.objects[tree].entries, |repo.objects[tree].entries|, prefix, p)
  {
    var entries := repo.objects[tree].entries;
    if TreeHas(repo, tree, prefix, p) {
      var q := p[|prefix|..];
      var id: Oid :| HeldAt(repo, tree, q, id);
      var j :| 0 <= j < |entries| && HeldIn(repo, entries[j], q, id);
      assert SideHas(repo, entries[j], prefix, p);
    }
    if AmongHas(repo, entries, |entries|, prefix, p) {
      var j :| 0 <= j < |entries| && SideHas(repo, entries[j], prefix, p);
      var id: Oid :| HeldIn(repo, entries[j], p[|prefix|..], id);
      assert HeldAt(repo, tree, p[|prefix|..], id);
    }
  }

  /** Everything below can be read and uses supported modes. */
  ghost predicate TreeSound(repo: Repo, tree: Oid)
    decreases tree
  {
    IsTree(repo, tree) &&
    forall e :: e in repo.objects[tree].entries ==>
      !e.mode.ModeOther? && (e.mode.ModeTree? ==> e.id < tree && TreeSound(repo, e.id))
  }

  ghost predicate EntrySound(repo: Repo, e: TreeEntry)
  {
    !e.mode.ModeOther? && (e.mode.ModeTree? ==> TreeSound(repo, e.id))
  }

  ghost predicate Distinct(s: seq<string>) { forall i, j :: 0 <= i < j < |s| ==> s[i] != s[j] }

  method CollectSide(host: Host, pol: PathPolicy, repo: Repo, e: TreeEntry, prefix: string, out0: seq<string>)
    returns (ok: bool, out: seq<string>)
    requires Policy.WellFormed(pol) && Acyclic(repo) && Distinct(out0)
    ensures Distinct(out) && (EntrySound(repo, e) ==> ok) && (ok ==> !e.mode.ModeOther?)
    ensures ok ==>
              forall p :: p in out <==> p in out0 || (Policy.Protected(host, pol, p) && SideHas(repo, e, prefix, p))
    decreases e.id, 1
  {
    var path := prefix + e.name;
    match e.mode {
      case ModeBlob =>
        forall p ensures SideHas(repo, e, prefix, p) <==> p == path { BlobSide(repo, e, prefix, p); }
        var guarded := Policy.Protects(host, pol, path);
        if guarded && path !in out0 {
          return true, out0 + [path];
        }
        return true, out0;
      case ModeTree =>
        ok, out := CollectTree(host, pol, repo, e.id, path + "/", out0);
        forall p ensures SideHas(repo, e, prefix, p) <==> TreeHas(repo, e.id, path + "/", p) {
          TreeSide(repo, e, prefix, p);
        }
      case ModeOther =>
        return false, out0;
    }
  }

  method CollectTree(host: Host, pol: PathPolicy, repo: Repo, tree: Oid, prefix: string, out0: seq<string>)
    returns (ok: bool, out: seq<string>)
    requires Policy.WellFormed(pol) && Acyclic(repo) && Distinct(out0)
    ensures Distinct(out) && (TreeSound(repo, tree) ==> ok)
    ensures ok ==>
              forall p :: p in out <==> p in out0 || (Policy.Protected(host, pol, p) && TreeHas(repo, tree, prefix, p))
    decreases tree, 0
  {
    out := out0;
    if !IsTree(repo, tree) {
      return false, out;
    }
    var entries := repo.objects[tree].entries;
    for i := 0 to |entries|
      invariant Distinct(out)
      invariant forall p :: p in out <==>
                p in out0 || (Policy.Protected(host, pol, p) && AmongHas(repo, entries, i, prefix, p))
    {
      assert entries[i] in entries;
      ok, out := CollectSide(host, pol, repo, entries[i], prefix, out);
      if !ok {
        return;
      }
    }
    forall p ensures TreeHas(repo, tree, prefix, p) <==> AmongHas(repo, entries, |entries|, prefix, p) {
      TreeIsAmong(repo, tree, prefix, p);
    }
    return true, out;
  }

  // ---- Two trees ----

  function EntriesOf(repo: Repo, tree: Oid): seq<TreeEntry>
  {
    if IsTree(repo, tree) then repo.objects[tree].entries else []
  }

  /** The entry a map by name keeps: the last one. */
  function LastNamed(entries: seq<TreeEntry>, name: string): Option<TreeEntry>
  {
    if entries == [] then None
    else
      var last := entries[|entries| - 1];
      if last.name == name then Some(last) else LastNamed(entries[..|entries| - 1], name)
  }

  ghost predicate FirstOfName(entries: seq<TreeEntry>, i: nat)
    requires i < |entries|
  {
    forall j :: 0 <= j < i ==> entries[j].name != entries[i].name
  }

  /** What the walk reports below two entries of one name: nothing if they are the same object, the
      differences below two directories, and everything on both sides otherwise. */
  ghost predicate EntryReported(repo: Repo, le: TreeEntry, be: TreeEntry, q: string)
    decreases |q|, 0, 0
  {
    if le.mode == be.mode && le.id == be.id then false
    else if le.mode.ModeTree? && be.mode.ModeTree? then le.name + "/" <= q &&
      Reported(repo, le.id, be.id, q[|le.name| + 1..])
    else SomethingIn(repo, le, q) || SomethingIn(repo, be, q)
  }

  ghost predicate LocalReported(repo: Repo, entries: seq<TreeEntry>, baseEntries: seq<TreeEntry>, i: nat, q: string)
    requires i < |entries|
    decreases |q|, 1, 0
  {
    if FirstOfName(entries, i) && LastNamed(baseEntries, entries[i].name).Some?
    then EntryReported(repo, entries[i], LastNamed(baseEntries, entries[i].name).value, q)
    else SomethingIn(repo, entries[i], q)
  }

  ghost predicate LocalsReported(repo: Repo, entries: seq<TreeEntry>, baseEntries: seq<TreeEntry>, n: nat, q: string)
    requires n <= |entries|
    decreases |q|, 2, n
  {
    n > 0 && (LocalsReported(repo, entries, baseEntries, n - 1, q) ||
      LocalReported(repo, entries, baseEntries, n - 1, q))
  }

  /** An entry only the base has, seen by its name. */
  ghost predicate BaseReported(repo: Repo, entries: seq<TreeEntry>, baseEntries: seq<TreeEntry>, name: string,
                               q: string)
  {
    && name !in NamesOf(entries) && LastNamed(baseEntries, name).Some?
    && SomethingIn(repo, LastNamed(baseEntries, name).value, q)
  }

  /** What the walk over two trees reports, for every pair of trees. */
  ghost predicate Reported(repo: Repo, local: Oid, base: Oid, q: string)
    decreases |q|, 3, 0
  {
    var entries, baseEntries := EntriesOf(repo, local), EntriesOf(repo, base);
    || LocalsReported(repo, entries, baseEntries, |entries|, q)
    || exists name :: BaseReported(repo, entries, baseEntries, name, q)
  }

  function NamesOf(entries: seq<TreeEntry>): set<string> { set i | 0 <= i < |entries| :: entries[i].name }

  lemma MoreNames(entries: seq<TreeEntry>, i: nat)
    requires i < |entries|
    ensures NamesOf(entries[..i + 1]) == NamesOf(entries[..i]) + {entries[i].name}
  {
    forall j | 0 <= j < i ensures entries[..i + 1][j] == entries[..i][j] { }
    assert entries[..i + 1][i] == entries[i];
  }

  ghost predicate EntriesAt(repo: Repo, le: TreeEntry, be: TreeEntry, prefix: string, p: string)
  {
    prefix <= p && EntryReported(repo, le, be, p[|prefix|..])
  }

  ghost predicate TreesAt(repo: Repo, local: Oid, base: Oid, prefix: string, p: string)
  {
    prefix <= p && Reported(repo, local, base, p[|prefix|..])
  }

  lemma TwoTreesAt(repo: Repo, le: TreeEntry, be: TreeEntry, prefix: string, p: string)
    requires le.mode.ModeTree? && be.mode.ModeTree? && le.id != be.id
    ensures EntriesAt(repo, le, be, prefix, p) <==> TreesAt(repo, le.id, be.id, prefix + le.name + "/", p)
  {
    Descend(le.name, prefix, p);
  }

  /** One name that both trees hold. */
  method DiffEntry(host: Host, pol: PathPolicy, repo: Repo, le: TreeEntry, be: TreeEntry, prefix: string,
                   out0: seq<string>)
    returns (ok: bool, out: seq<string>)
    requires Policy.WellFormed(pol) && Acyclic(repo) && Distinct(out0)
    ensures Distinct(out) && (EntrySound(repo, le) && EntrySound(repo, be) ==> ok)
    ensures ok ==>
              forall p :: p in out <==>
                p in out0 || (Policy.Protected(host, pol, p) && EntriesAt(repo, le, be, prefix, p))
    decreases le.id + be.id, 1
  {
    if le.mode == be.mode && le.id == be.id {
      return true, out0;
    }
    if le.mode.ModeTree? && be.mode.ModeTree? {
      ok, out := DiffTrees(host, pol, repo, le.id, be.id, prefix + le.name + "/", out0);
      forall p ensures EntriesAt(repo, le, be, prefix, p) <==> TreesAt(repo, le.id, be.id, prefix + le.name + "/", p) {
        TwoTreesAt(repo, le, be, prefix, p);
      }
      return;
    }
    ok, out := CollectSide(host, pol, repo, le, prefix, out0);
    if !ok {
      return;
    }
    ok, out := CollectSide(host, pol, repo, be, prefix, out);
  }

  ghost predicate LocalsAt(repo: Repo, entries: seq<TreeEntry>, baseEntries: seq<TreeEntry>, n: nat, prefix: string,
                           p: string)
    requires n <= |entries|
  {
    prefix <= p && LocalsReported(repo, entries, baseEntries, n, p[|prefix|..])
  }

  /** The base entries by name, without the given names. */
  ghost predicate Remaining(byName: map<string, TreeEntry>, entries: seq<TreeEntry>, gone: set<string>)
  {
    forall name :: (name in byName <==> name !in gone && LastNamed(entries, name).Some?)
                   && (name in byName ==> LastNamed(entries, name) == Some(byName[name]))
  }

  method ByName(entries: seq<TreeEntry>) returns (byName: map<string, TreeEntry>)
    ensures Remaining(byName, entries, {})
  {
    byName := map[];
    for i := 0 to |entries|
      invariant Remaining(byName, entries[..i], {})
    {
      assert entries[..i + 1][..i] == entries[..i] && entries[..i + 1][i] == entries[i];
      byName := byName[entries[i].name := entries[i]];
    }
    assert entries[..|entries|] == entries;
  }

  lemma {:induction false} LastNamedIsThere(entries: seq<TreeEntry>, name: string)
    ensures match LastNamed(entries, name)
            case None => forall e :: e in entries ==> e.name != name
            case Some(e) => e in entries && e.name == name
  {
    if entries != [] {
      LastNamedIsThere(entries[..|entries| - 1], name);
      assert entries == entries[..|entries| - 1] + [entries[|entries| - 1]];
    }
  }

  function Self(s: string): string { s }

  /** The map's keys, collected in any order and sorted. */
  method SortedKeys(byName: map<string, TreeEntry>) returns (names: seq<string>)
    ensures forall name :: name in names <==> name in byName
  {
    var keys := byName.Keys;
    var collected := [];
    while keys != {}
      invariant keys <= byName.Keys
      invariant forall name :: name in collected <==> name in byName && name !in keys
      decreases keys
    {
      var name :| name in keys;
      keys := keys - {name};
      collected := collected + [name];
    }
    names := Ordering.Sort(collected, Self);
    forall name ensures name in names <==> name in collected { Ordering.SortMembers(collected, Self, name); }
  }

  /** One of the named entries holds a blob at p. */
  ghost predicate NamedHas(repo: Repo, byName: map<string, TreeEntry>, names: seq<string>, prefix: string, p: string)
  {
    exists k :: 0 <= k < |names| && names[k] in byName && SideHas(repo, byName[names[k]], prefix, p)
  }

  method CollectRest(host: Host, pol: PathPolicy, repo: Repo, base: Oid, byName: map<string, TreeEntry>,
                     prefix: string, out0: seq<string>)
    returns (ok: bool, out: seq<string>, ghost names: seq<string>)
    requires Policy.WellFormed(pol) && Acyclic(repo) && Distinct(out0) && IsTree(repo, base)
    requires forall name :: name in byName ==> byName[name] in repo.objects[base].entries
    ensures Distinct(out) && (TreeSound(repo, base) ==> ok) && forall name :: name in names <==> name in byName
    ensures ok ==>
              forall p :: p in out <==>
                p in out0 || (Policy.Protected(host, pol, p) && NamedHas(repo, byName, names, prefix, p))
  {
    var sorted := SortedKeys(byName);
    ok, out, names := true, out0, sorted;
    for i := 0 to |sorted|
      invariant ok && Distinct(out)
      invariant forall p :: p in out <==>
                p in out0 || (Policy.Protected(host, pol, p) && NamedHas(repo, byName, sorted[..i], prefix, p))
    {
      assert sorted[i] in sorted;
      ghost var before := out;
      ok, out := CollectSide(host, pol, repo, byName[sorted[i]], prefix, out);
      if !ok {
        return;
      }
      forall p
        ensures NamedHas(repo, byName, sorted[..i + 1], prefix, p) <==>
                NamedHas(repo, byName, sorted[..i], prefix, p) || SideHas(repo, byName[sorted[i]], prefix, p)
      {
        MoreNamed(repo, byName, sorted, i, prefix, p);
      }
    }
    assert sorted[..|sorted|] == sorted;
  }

  lemma MoreNamed(repo: Repo, byName: map<string, TreeEntry>, names: seq<string>, i: nat, prefix: string, p: string)
    requires i < |names| && names[i] in byName
    ensures NamedHas(repo, byName, names[..i + 1], prefix, p)
            <==> NamedHas(repo, byName, names[..i], prefix, p) || SideHas(repo, byName[names[i]], prefix, p)
  {
    var more := names[..i + 1];
    assert more[i] == names[i] && forall k :: 0 <= k < i ==> more[k] == names[..i][k];
  }

  /** diffTrees: adds exactly the protected paths the walk reports, for every pair of trees. */
  method DiffTrees(host: Host, pol: PathPolicy, repo: Repo, local: Oid, base: Oid, prefix: string, out0: seq<string>)
    returns (ok: bool, out: seq<string>)
    requires Policy.WellFormed(pol) && Acyclic(repo) && Distinct(out0)
    ensures Distinct(out) && (TreeSound(repo, local) && TreeSound(repo, base) ==> ok)
    ensures ok ==>
              forall p :: p in out <==>
                p in out0 || (Policy.Protected(host, pol, p) && TreesAt(repo, local, base, prefix, p))
    decreases local + base, 0
  {
    ok, out := true, out0;
    if !IsTree(repo, local) || !IsTree(repo, base) {
      return false, out;
    }
    var entries, baseEntries := repo.objects[local].entries, repo.objects[base].entries;
    var byName := ByName(baseEntries);
    for i := 0 to |entries|
      invariant ok && Distinct(out) && Remaining(byName, baseEntries, NamesOf(entries[..i]))
      invariant forall p :: p in out <==>
                p in out0 || (Policy.Protected(host, pol, p) && LocalsAt(repo, entries, baseEntries, i, prefix, p))
    {
      var le := entries[i];
      assert le in entries;
      MoreNames(entries, i);
      NamedBefore(entries, i);
      LastNamedIsThere(baseEntries, le.name);
      if le.name !in byName {
        ok, out := CollectSide(host, pol, repo, le, prefix, out);
      } else {
        var be := byName[le.name];
        byName := byName - {le.name};
        ok, out := DiffEntry(host, pol, repo, le, be, prefix, out);
      }
      if !ok {
        return;
      }
      forall p
        ensures LocalsAt(repo, entries, baseEntries, i + 1, prefix, p) <==>
                LocalsAt(repo, entries, baseEntries, i, prefix, p) || OneAt(repo, entries, baseEntries, i, prefix, p)
      {
        MoreLocals(repo, entries, baseEntries, i, prefix, p);
      }
    }
    assert entries[..|entries|] == entries;
    forall name | name in byName ensures byName[name] in baseEntries { LastNamedIsThere(baseEntries, name); }
    ghost var names;
    ok, out, names := CollectRest(host, pol, repo, base, byName, prefix, out);
    forall p
      ensures TreesAt(repo, local, base, prefix, p) <==>
              LocalsAt(repo, entries, baseEntries, |entries|, prefix, p) || NamedHas(repo, byName, names, prefix, p)
    {
      RestIsBase(repo, local, base, byName, names, prefix, p);
    }
  }

  /** What one turn of the loop adds. */
  ghost predicate OneAt(repo: Repo, entries: seq<TreeEntry>, baseEntries: seq<TreeEntry>, i: nat, prefix: string,
                        p: string)
    requires i < |entries|
  {
    if FirstOfName(entries, i) && LastNamed(baseEntries, entries[i].name).Some?
    then EntriesAt(repo, entries[i], LastNamed(baseEntries, entries[i].name).value, prefix, p)
    else SideHas(repo, entries[i], prefix, p)
  }

  lemma MoreLocals(repo: Repo, entries: seq<TreeEntry>, baseEntries: seq<TreeEntry>, i: nat, prefix: string, p: string)
    requires i < |entries|
    ensures LocalsAt(repo, entries, baseEntries, i + 1, prefix, p)
            <==> LocalsAt(repo, entries, baseEntries, i, prefix, p) || OneAt(repo, entries, baseEntries, i, prefix, p)
  {
    if prefix <= p {
      var q := p[|prefix|..];
      assert LocalReported(repo, entries, baseEntries, i, q) <==> OneAt(repo, entries, baseEntries, i, prefix, p);
    }
  }

  lemma NamedBefore(entries: seq<TreeEntry>, i: nat)
    requires i < |entries|
    ensures FirstOfName(entries, i) <==> entries[i].name !in NamesOf(entries[..i])
  {
    assert forall j :: 0 <= j < i ==> entries[..i][j] == entries[j];
  }

  lemma RestIsBase(repo: Repo, local: Oid, base: Oid, byName: map<string, TreeEntry>, names: seq<string>,
                   prefix: string, p: string)
    requires IsTree(repo, local) && IsTree(repo, base) && forall name :: name in names <==> name in byName
    requires Remaining(byName, repo.objects[base].entries, NamesOf(repo.objects[local].entries))
    ensures var entries, baseEntries := repo.objects[local].entries, repo.objects[base].entries;
            TreesAt(repo, local, base, prefix, p)
            <==> LocalsAt(repo, entries, baseEntries, |entries|, prefix, p) || NamedHas(repo, byName, names, prefix, p)
  {
    var entries, baseEntries := repo.objects[local].entries, repo.objects[base].entries;
    if prefix <= p {
      var q := p[|prefix|..];
      NamedAtTail(repo, entries, baseEntries, byName, names, prefix, p);
      assert EntriesOf(repo, local) == entries && EntriesOf(repo, base) == baseEntries;
    }
  }

  lemma NamedAtTail(repo: Repo, entries: seq<TreeEntry>, baseEntries: seq<TreeEntry>, byName: map<string, TreeEntry>,
                    names: seq<string>,
                    prefix: string, p: string)
    requires prefix <= p && Remaining(byName, baseEntries, NamesOf(entries))
    requires forall name :: name in names <==> name in byName
    ensures NamedHas(repo, byName, names, prefix, p) <==>
            exists name :: BaseReported(repo, entries, baseEntries, name, p[|prefix|..])
  {
    if NamedHas(repo, byName, names, prefix, p) {
      var k :| 0 <= k < |names| && names[k] in byName && SideHas(repo, byName[names[k]], prefix, p);
      assert BaseReported(repo, entries, baseEntries, names[k], p[|prefix|..]);
    }
    if exists name :: BaseReported(repo, entries, baseEntries, name, p[|prefix|..]) {
      var name :| BaseReported(repo, entries, baseEntries, name, p[|prefix|..]);
      assert name in byName && name in names;
      var k :| 0 <= k < |names| && names[k] == name;
      assert SideHas(repo, byName[names[k]], prefix, p);
    }
  }

  // ---- What the report means ----

  lemma {:induction false} LastIsFind(entries: seq<TreeEntry>, name: string)
    requires NamesOk(entries)
    ensures LastNamed(entries, name) == Find(entries, name)
  {
    LastNamedIsThere(entries, name);
    FindSound(entries, name);
    if LastNamed(entries, name).Some? {
      var i :| 0 <= i < |entries| && entries[i] == LastNamed(entries, name).value;
      FindMember(entries, i);
    }
  }

  /** The trees an entry leads to use distinct slash-free names. */
  ghost predicate EntryNamed(repo: Repo, e: TreeEntry)
  {
    SlashFree(e.name) && (e.mode.ModeTree? ==> WellNamed(repo, e.id))
  }

  lemma EntryIsNamed(repo: Repo, tree: Oid, i: nat)
    requires Acyclic(repo) && WellNamed(repo, tree) && i < |EntriesOf(repo, tree)|
    ensures NamesOk(EntriesOf(repo, tree)) && EntryNamed(repo, EntriesOf(repo, tree)[i])
  {
    assert repo.objects[tree].entries[i] in repo.objects[tree].entries;
  }

  lemma EntrySomething(repo: Repo, e: TreeEntry, q: string)
    requires Acyclic(repo) && EntryNamed(repo, e)
    ensures SomethingIn(repo, e, q) <==> First(q) == e.name && Under(repo, e, q).Some?
  {
    forall id: Oid ensures HeldIn(repo, e, q, id) <==> First(q) == e.name && Under(repo, e, q) == Some(id) {
      if e.mode.ModeTree? && Nested(q) { HeldIsLookup(repo, e.id, After(q), id); }
      HeldUnderName(repo, e, q, id);
    }
  }

  /** What the other tree holds under the entry of this name. */
  function UnderFound(repo: Repo, found: Option<TreeEntry>, q: string): Option<Oid>
  {
    if found.Some? then Under(repo, found.value, q) else None
  }

  lemma {:induction false} EntryReportedIs(repo: Repo, le: TreeEntry, be: TreeEntry, q: string)
    requires Acyclic(repo) && EntryNamed(repo, le) && EntryNamed(repo, be) && le.name == be.name
    ensures EntryReported(repo, le, be, q) <==> First(q) == le.name && Under(repo, le, q) != Under(repo, be, q)
    decreases |q|, 0
  {
    if le.mode == be.mode && le.id == be.id {
    } else if le.mode.ModeTree? && be.mode.ModeTree? {
      Rejoined(q);
      if le.name + "/" <= q {
        var rest := q[|le.name| + 1..];
        assert q == le.name + "/" + rest;
        Joined(le.name, rest);
        ReportedIsDifference(repo, le.id, be.id, rest);
      }
    } else {
      EntrySomething(repo, le, q);
      EntrySomething(repo, be, q);
    }
  }

  lemma {:induction false} LocalReportedIs(repo: Repo, local: Oid, base: Oid, i: nat, q: string)
    requires Acyclic(repo) && WellNamed(repo, local) && WellNamed(repo, base) && i < |EntriesOf(repo, local)|
    ensures var le := EntriesOf(repo, local)[i]; var baseEntries := EntriesOf(repo, base);
            LocalReported(repo, EntriesOf(repo, local), baseEntries, i, q)
            <==> First(q) == le.name && Under(repo, le, q) != UnderFound(repo, Find(baseEntries, le.name), q)
    decreases |q|, 1
  {
    var entries, baseEntries := EntriesOf(repo, local), EntriesOf(repo, base);
    var le := entries[i];
    EntryIsNamed(repo, local, i);
    LastNamedIsThere(baseEntries, le.name);
    LastIsFind(baseEntries, le.name) by { if baseEntries != [] { EntryIsNamed(repo, base, 0); } }
    if LastNamed(baseEntries, le.name).Some? {
      var be := LastNamed(baseEntries, le.name).value;
      var k :| 0 <= k < |baseEntries| && baseEntries[k] == be;
      EntryIsNamed(repo, base, k);
      EntryReportedIs(repo, le, be, q);
    } else {
      EntrySomething(repo, le, q);
    }
  }

  lemma {:induction false} LocalsReportedAre(repo: Repo, local: Oid, base: Oid, n: nat, q: string)
    requires Acyclic(repo) && WellNamed(repo, local) && WellNamed(repo, base) && n <= |EntriesOf(repo, local)|
    ensures var entries, baseEntries := EntriesOf(repo, local), EntriesOf(repo, base);
            LocalsReported(repo, entries, baseEntries, n, q) <==>
            exists i :: 0 <= i < n && First(q) == entries[i].name
                        && Under(repo, entries[i], q) != UnderFound(repo, Find(baseEntries, entries[i].name), q)
    decreases |q|, 2, n
  {
    if n > 0 {
      LocalsReportedAre(repo, local, base, n - 1, q);
      LocalReportedIs(repo, local, base, n - 1, q);
    }
  }

  lemma BaseReportedIs(repo: Repo, local: Oid, base: Oid, q: string)
    requires Acyclic(repo) && WellNamed(repo, local) && WellNamed(repo, base)
    ensures var entries, baseEntries := EntriesOf(repo, local), EntriesOf(repo, base);
            (exists name :: BaseReported(repo, entries, baseEntries, name, q)) <==>
            Find(entries, First(q)).None? && UnderFound(repo, Find(baseEntries, First(q)), q).Some?
  {
    var entries, baseEntries := EntriesOf(repo, local), EntriesOf(repo, base);
    if baseEntries != [] { EntryIsNamed(repo, base, 0); }
    FindSound(entries, First(q));
    forall name ensures BaseReported(repo, entries, baseEntries, name, q) <==>
                        name == First(q) && Find(entries, name).None? &&
                          UnderFound(repo, Find(baseEntries, name), q).Some? {
      LastIsFind(baseEntries, name);
      FindSound(entries, name);
      FindSound(baseEntries, name);
      if Find(baseEntries, name).Some? {
        var k :| 0 <= k < |baseEntries| && baseEntries[k] == Find(baseEntries, name).value;
        EntryIsNamed(repo, base, k);
        EntrySomething(repo, baseEntries[k], q);
      }
    }
  }

  /** Where no tree repeats a name, the walk reports exactly the paths at which the two trees hold
      different blobs, file and directory changes included. */
  lemma {:induction false} ReportedIsDifference(repo: Repo, local: Oid, base: Oid, q: string)
    requires Acyclic(repo) && WellNamed(repo, local) && WellNamed(repo, base)
    ensures Reported(repo, local, base, q) <==> BlobAt(repo, local, q) != BlobAt(repo, base, q)
    decreases |q|, 3
  {
    var entries, baseEntries := EntriesOf(repo, local), EntriesOf(repo, base);
    LocalsReportedAre(repo, local, base, |entries|, q);
    BaseReportedIs(repo, local, base, q);
    LookupIs(repo, local, q);
    LookupIs(repo, base, q);
    FindSound(entries, First(q));
    if Find(entries, First(q)).Some? {
      EntryIsNamed(repo, local, 0);
      var k :| 0 <= k < |entries| && entries[k] == Find(entries, First(q)).value;
      forall i | 0 <= i < |entries| && entries[i].name == First(q) ensures i == k { }
    }
  }

  lemma LookupIs(repo: Repo, tree: Oid, q: string)
    ensures BlobAt(repo, tree, q) == UnderFound(repo, Find(EntriesOf(repo, tree), First(q)), q)
  {
  }

  // ---- Detection ----

  /** ChangedProtected: sorted, without duplicates, exactly the protected paths the walk reports; where no
      tree repeats a name, exactly the protected paths whose blob differs. */
  method ChangedProtected(host: Host, pol: PathPolicy, repo: Repo, local: Oid, base: Oid)
    returns (ok: bool, changed: seq<string>)
    requires Policy.WellFormed(pol) && Acyclic(repo)
    ensures TreeSound(repo, local) && TreeSound(repo, base) ==> ok
    ensures ok ==> Ordering.Ascending(changed, Self)
    ensures ok && local != base ==>
              forall p :: p in changed <==> Policy.Protected(host, pol, p) && Reported(repo, local, base, p)
    ensures ok && local == base ==> changed == []
    ensures ok && WellNamed(repo, local) && WellNamed(repo, base) ==>
              forall p :: p in changed <==>
                Policy.Protected(host, pol, p) && BlobAt(repo, local, p) != BlobAt(repo, base, p)
  {
    if !pol.Configured() || local == base {
      return true, [];
    }
    var found;
    ok, found := DiffTrees(host, pol, repo, local, base, "", []);
    if !ok {
      return false, [];
    }
    changed := Ordering.Sort(found, Self);
    Ordering.SortAscending(found, Self);
    forall p ensures p in changed <==> Policy.Protected(host, pol, p) && Reported(repo, local, base, p) {
      Ordering.SortMembers(found, Self, p);
      assert p[|""|..] == p;
    }
    if WellNamed(repo, local) && WellNamed(repo, base) {
      forall p ensures Reported(repo, local, base, p) <==> BlobAt(repo, local, p) != BlobAt(repo, base, p) {
        ReportedIsDifference(repo, local, base, p);
      }
    }
  }

  // ---- A tree that repeats a name ----

  /** Tree 9 names directory "d" twice, with one file in each; tree 8 holds both files in one "d". */
  function TwiceNamed(): Repo
  {
    Repo(map[1 := Blob("x"), 2 := Tree([TreeEntry("a", ModeBlob, 1)]), 3 := Tree([TreeEntry("b", ModeBlob, 1)]),
             4 := Tree([TreeEntry("a", ModeBlob, 1), TreeEntry("b", ModeBlob, 1)]),
             8 := Tree([TreeEntry("d", ModeTree, 4)]),
               9 := Tree([TreeEntry("d", ModeTree, 2), TreeEntry("d", ModeTree, 3)])], {})
  }

  /** Both trees hold the same blob at d/a, and the walk reports the path: the map by name kept only the
      second directory. */
  lemma RepeatedNameMisreports()
    ensures Acyclic(TwiceNamed()) && !WellNamed(TwiceNamed(), 9)
    ensures HeldAt(TwiceNamed(), 8, "d/a", 1) && HeldAt(TwiceNamed(), 9, "d/a", 1)
    ensures Reported(TwiceNamed(), 8, 9, "d/a")
  {
    TwiceNamedShape();
    TwiceNamedHolds();
    TwiceNamedReports();
  }

  lemma TwiceNamedShape()
    ensures Acyclic(TwiceNamed()) && !WellNamed(TwiceNamed(), 9)
  {
    var entries := TwiceNamed().objects[9].entries;
    assert entries[0].name == entries[1].name && !NamesOk(entries);
  }

  lemma TwiceNamedHolds()
    ensures HeldAt(TwiceNamed(), 8, "d/a", 1) && HeldAt(TwiceNamed(), 9, "d/a", 1)
  {
    var repo := TwiceNamed();
    assert "d/a"[|"d"| + 1..] == "a" && "d" + "/" <= "d/a";
    assert HeldIn(repo, repo.objects[4].entries[0], "a", 1) && HeldIn(repo, repo.objects[2].entries[0], "a", 1);
    assert HeldAt(repo, 4, "a", 1) && HeldAt(repo, 2, "a", 1);
    assert HeldIn(repo, repo.objects[8].entries[0], "d/a", 1) && HeldIn(repo, repo.objects[9].entries[0], "d/a", 1);
  }

  lemma TwiceNamedReports()
    ensures Reported(TwiceNamed(), 8, 9, "d/a")
  {
    var repo := TwiceNamed();
    var e, f, g := TreeEntry("d", ModeTree, 4), TreeEntry("d", ModeTree, 2), TreeEntry("d", ModeTree, 3);
    assert "d/a"[|"d"| + 1..] == "a" && "d" + "/" <= "d/a";
    SecondDirectoryDiffers();
    LastOfTwo(repo.objects[9].entries, f, g);
    assert EntryReported(repo, e, g, "d/a");
    assert LocalReported(repo, repo.objects[8].entries, repo.objects[9].entries, 0, "d/a");
    assert LocalsReported(repo, repo.objects[8].entries, repo.objects[9].entries, 1, "d/a");
  }

  lemma LastOfTwo(entries: seq<TreeEntry>, f: TreeEntry, g: TreeEntry)
    requires entries == [f, g]
    ensures LastNamed(entries, g.name) == Some(g)
  {
  }

  lemma SecondDirectoryDiffers()
    ensures Reported(TwiceNamed(), 4, 3, "a")
  {
    var repo := TwiceNamed();
    var entries, baseEntries := repo.objects[4].entries, repo.objects[3].entries;
    assert baseEntries[..0] == [] && LastNamed(baseEntries, "a") == None;
    assert HeldIn(repo, entries[0], "a", 1);
    assert SomethingIn(repo, entries[0], "a");
    assert LocalReported(repo, entries, baseEntries, 0, "a");
    assert LocalsReported(repo, entries, baseEntries, 1, "a");
    assert LocalsReported(repo, entries, baseEntries, 2, "a");
  }

  // ---- Content, not only object IDs ----

  /** Equal objects have equal IDs. */
  ghost predicate ContentAddressed(repo: Repo)
  {
    forall x, y :: x in repo.objects && y in repo.objects && repo.objects[x] == repo.objects[y] ==> x == y
  }

  /** In a content-addressed store the object IDs at a path differ exactly when the content does. */
  lemma IdsDifferAsContent(repo: Repo, local: Oid, base: Oid, p: string)
    requires ContentAddressed(repo)
    requires forall t, id :: t in {local, base} && BlobAt(repo, t, p) == Some(id) ==>
              id in repo.objects && repo.objects[id].Blob?
    ensures BlobAt(repo, local, p) != BlobAt(repo, base, p) <==> DataAt(repo, local, p) != DataAt(repo, base, p)
  {
    if BlobAt(repo, local, p).Some? && BlobAt(repo, base, p).Some? && DataAt(repo, local, p) == DataAt(repo, base, p) {
      assert repo.objects[BlobAt(repo, local, p).value] == repo.objects[BlobAt(repo, base, p).value];
    }
  }
}
