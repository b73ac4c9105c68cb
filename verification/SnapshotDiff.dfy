/** The per-file change summary between two snapshots (DiffSnapshots of internal/git/diffstat.go). */
module SnapshotDiff {
  import opened EditDistance
  import opened TextLines
  import opened Ordering
  import DiffStat

  type Contents = map<string, string>

  datatype FileStat = FileStat(path: string, insertions: nat, deletions: nat)

  function StatPath(s: FileStat): string { s.path }

  function DataOf(m: Contents, p: string): string { if p in m then m[p] else "" }

  lemma {:induction false} LcsOfSame<T>(a: seq<T>)
    ensures Lcs(a, a) == |a|
  {
    if a != [] { LcsOfSame(a[..|a| - 1]); }
  }

  lemma {:induction false} LcsBound<T>(a: seq<T>, b: seq<T>)
    ensures Lcs(a, b) <= |a| && Lcs(a, b) <= |b|
    decreases |a| + |b|
  {
    if a != [] && b != [] {
      LcsBound(a[..|a| - 1], b[..|b| - 1]);
      LcsBound(a[..|a| - 1], b);
      LcsBound(a, b[..|b| - 1]);
    }
  }

  /** What the summary says about one path; a missing file counts as empty. */
  ghost function StatOf(base: Contents, cur: Contents, p: string): FileStat
  {
    var a, b := Lines(DataOf(base, p)), Lines(DataOf(cur, p));
    LcsBound(a, b);
    FileStat(p, |b| - Lcs(a, b), |a| - Lcs(a, b))
  }

  predicate Silent(s: FileStat) { s.insertions == 0 && s.deletions == 0 }

  /** A path is silent exactly when its comparison lines are unchanged. */
  lemma SilentExactlyWhenSameLines(base: Contents, cur: Contents, p: string)
    ensures Silent(StatOf(base, cur, p)) <==> Lines(DataOf(base, p)) == Lines(DataOf(cur, p))
  {
    var a, b := Lines(DataOf(base, p)), Lines(DataOf(cur, p));
    LcsBound(a, b);
    if a == b { LcsOfSame(a); }
    if Lcs(a, b) == |a| == |b| {
      DistIsLcs(a, b);
      DistZero(a, b);
    }
  }

  // ---- Sums over sets of paths ----

  ghost function SumLines(m: Contents, paths: set<string>): nat
  {
    if paths == {} then 0
    else
      var p :| p in paths;
      |Lines(DataOf(m, p))| + SumLines(m, paths - {p})
  }

  lemma {:induction false} SumAdd(m: Contents, paths: set<string>, p: string)
    requires p in paths
    ensures SumLines(m, paths) == |Lines(DataOf(m, p))| + SumLines(m, paths - {p})
    decreases |paths|
  {
    var q :| q in paths && SumLines(m, paths) == |Lines(DataOf(m, q))| + SumLines(m, paths - {q});
    if q != p {
      SumAdd(m, paths - {q}, p);
      SumAdd(m, paths - {p}, q);
      assert paths - {q} - {p} == paths - {p} - {q};
    }
  }

  function TotalInsertions(stats: seq<FileStat>): nat
  {
    if stats == [] then 0 else stats[0].insertions + TotalInsertions(stats[1..])
  }

  function TotalDeletions(stats: seq<FileStat>): nat
  {
    if stats == [] then 0 else stats[0].deletions + TotalDeletions(stats[1..])
  }

  lemma {:induction false} TotalsAppend(a: seq<FileStat>, b: seq<FileStat>)
    ensures TotalInsertions(a + b) == TotalInsertions(a) + TotalInsertions(b)
    ensures TotalDeletions(a + b) == TotalDeletions(a) + TotalDeletions(b)
  {
    if a == [] {
      assert a + b == b;
    } else {
      assert (a + b)[1..] == a[1..] + b;
      TotalsAppend(a[1..], b);
    }
  }

  lemma {:induction false} TotalsOfInsert(x: FileStat, s: seq<FileStat>)
    ensures TotalInsertions(Ordering.Insert(x, s, StatPath)) == x.insertions + TotalInsertions(s)
    ensures TotalDeletions(Ordering.Insert(x, s, StatPath)) == x.deletions + TotalDeletions(s)
  {
    if s == [] || !Less(s[0].path, x.path) {
      TotalsAppend([x], s);
      assert [x][1..] == [];
    } else {
      TotalsOfInsert(x, s[1..]);
      TotalsAppend([s[0]], Ordering.Insert(x, s[1..], StatPath));
      assert [s[0]][1..] == [];
    }
  }

  /** Sorting keeps the totals. */
  lemma {:induction false} TotalsOfSort(s: seq<FileStat>)
    ensures TotalInsertions(Sort(s, StatPath)) == TotalInsertions(s)
    ensures TotalDeletions(Sort(s, StatPath)) == TotalDeletions(s)
  {
    if s != [] {
      TotalsOfSort(s[1..]);
      TotalsOfInsert(s[0], Sort(s[1..], StatPath));
    }
  }

  // ---- The loops ----

  /** The summary restricted to the paths looked at. */
  ghost predicate Summary(base: Contents, cur: Contents, done: set<string>, stats: seq<FileStat>, insertions: nat,
                          deletions: nat)
  {
    && (forall s :: s in stats <==> s.path in done && s == StatOf(base, cur, s.path) && !Silent(s))
    && DistinctKeys(stats, StatPath)
    && insertions == TotalInsertions(stats) && deletions == TotalDeletions(stats)
    && insertions - deletions == SumLines(cur, done) - SumLines(base, done)
  }

  /** The add closure applied to one more path. */
  method AddPath(ghost base: Contents, ghost cur: Contents, ghost done: set<string>, path: string, ins: nat, del: nat,
                 stats0: seq<FileStat>, insertions0: nat, deletions0: nat)
    returns (stats: seq<FileStat>, insertions: nat, deletions: nat)
    requires Summary(base, cur, done, stats0, insertions0, deletions0) && path !in done
    requires FileStat(path, ins, del) == StatOf(base, cur, path)
    ensures Summary(base, cur, done + {path}, stats, insertions, deletions)
  {
    stats, insertions, deletions := stats0, insertions0, deletions0;
    ghost var more := done + {path};
    SumAdd(cur, more, path);
    SumAdd(base, more, path);
    assert more - {path} == done;
    if ins == 0 && del == 0 {
      return;
    }
    stats := stats + [FileStat(path, ins, del)];
    insertions, deletions := insertions + ins, deletions + del;
    TotalsAppend(stats0, [FileStat(path, ins, del)]);
    forall i, j | 0 <= i < j < |stats| ensures stats[i].path != stats[j].path {
      if j == |stats0| { assert stats0[i] in stats0; }
    }
  }

  /** One path of the current snapshot. */
  method DiffPath(base: Contents, cur: Contents, path: string) returns (ins: nat, del: nat)
    requires path in cur
    ensures FileStat(path, ins, del) == StatOf(base, cur, path)
  {
    if path !in base {
      CountLinesIsLength(cur[path]);
      return CountLines(cur[path]), 0;
    }
    if base[path] == cur[path] {
      LcsOfSame(Lines(cur[path]));
      return 0, 0;
    }
    var a := SplitLines(base[path]);
    var b := SplitLines(cur[path]);
    ins, del := DiffStat.CountDiff(a, b);
  }

  /** DiffSnapshots: one entry for each path whose comparison lines changed, sorted by path, with the
      counts of a shortest edit script; the totals are the sums, and together they account for the
      change of the line count of the whole notebook. */
  method DiffSnapshots(base: Contents, cur: Contents) returns (files: seq<FileStat>, insertions: nat, deletions: nat)
    ensures Ascending(files, StatPath)
    ensures forall s :: s in files <==> s == StatOf(base, cur, s.path) && !Silent(s)
    ensures insertions == TotalInsertions(files) && deletions == TotalDeletions(files)
    ensures insertions - deletions == SumLines(cur, base.Keys + cur.Keys) - SumLines(base, base.Keys + cur.Keys)
  {
    var stats: seq<FileStat> := [];
    insertions, deletions := 0, 0;
    var todo := cur.Keys;
    while todo != {}
      invariant todo <= cur.Keys && Summary(base, cur, cur.Keys - todo, stats, insertions, deletions)
      decreases todo
    {
      var path :| path in todo;
      var ins, del := DiffPath(base, cur, path);
      ghost var done := cur.Keys - todo;
      stats, insertions, deletions := AddPath(base, cur, done, path, ins, del, stats, insertions, deletions);
      OneLessToDo(cur.Keys, todo, path);
      todo := todo - {path};
    }
    assert cur.Keys - {} == cur.Keys;
    var left := base.Keys - cur.Keys;
    assert base.Keys + cur.Keys - left == cur.Keys;
    while left != {}
      invariant left <= base.Keys - cur.Keys
      invariant Summary(base, cur, base.Keys + cur.Keys - left, stats, insertions, deletions)
      decreases left
    {
      var path :| path in left;
      ghost var done := base.Keys + cur.Keys - left;
      CountLinesIsLength(base[path]);
      stats, insertions, deletions := AddPath(base, cur, done, path, 0, CountLines(base[path]), stats, insertions,
        deletions);
      OneLessToDo(base.Keys + cur.Keys, left, path);
      left := left - {path};
    }
    assert base.Keys + cur.Keys - {} == base.Keys + cur.Keys;
    files := Sort(stats, StatPath);
    SummarySorted(base, cur, stats, insertions, deletions);
  }

  lemma OneLessToDo(all: set<string>, left: set<string>, path: string)
    requires path in left && left <= all
    ensures all - (left - {path}) == all - left + {path} && path !in all - left
  {
  }

  /** Once both sides are done, the sorted entries are exactly the changed paths. */
  lemma SummarySorted(base: Contents, cur: Contents, stats: seq<FileStat>, insertions: nat, deletions: nat)
    requires Summary(base, cur, base.Keys + cur.Keys, stats, insertions, deletions)
    ensures Ascending(Sort(stats, StatPath), StatPath)
    ensures forall s :: s in Sort(stats, StatPath) <==> s == StatOf(base, cur, s.path) && !Silent(s)
    ensures insertions == TotalInsertions(Sort(stats, StatPath)) && deletions == TotalDeletions(Sort(stats, StatPath))
  {
    SortAscending(stats, StatPath);
    TotalsOfSort(stats);
    forall s ensures s in Sort(stats, StatPath) <==> s == StatOf(base, cur, s.path) && !Silent(s) {
      SortMembers(stats, StatPath, s);
      OnlyKnownPaths(base, cur, s.path);
    }
  }

  /** A path that neither side holds is silent. */
  lemma OnlyKnownPaths(base: Contents, cur: Contents, p: string)
    ensures p !in base && p !in cur ==> Silent(StatOf(base, cur, p))
  {
    assert Lines("") == [];
  }
}
