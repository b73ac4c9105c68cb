/** History validation and the export walks of internal/git/pack.go. */
module Pack {
  import opened GitGraph

  function C(id: Oid): Node { Node(AsCommit, id) }

  function T(id: Oid): Node { Node(AsTree, id) }

  ghost function Ids(s: set<Node>): set<Oid> { set x | x in s :: x.id }

  /** x is as it should be, and the object IDs it references are among the given ones. */
  ghost predicate Expanded(repo: Repo, gap: set<Oid>, x: Node, ids: set<Oid>)
  {
    Sound(repo, x) && forall y :: y in Succ(repo, gap, x) ==> y.id in ids
  }

  /** The nodes proved so far: reached from the root, with references among the given IDs. */
  ghost predicate Proved(repo: Repo, gap: set<Oid>, root: Node, nodes: set<Node>, ids: set<Oid>)
  {
    forall x :: x in nodes ==> Reaches(repo, gap, root, x) && Expanded(repo, gap, x, ids)
  }

  ghost predicate AllReached(repo: Repo, gap: set<Oid>, root: Node, role: Role, queue: seq<Oid>)
  {
    forall q :: q in queue ==> Reaches(repo, gap, root, Node(role, q))
  }

  lemma MoreEntries(entries: seq<TreeEntry>, i: nat)
    requires i < |entries|
    ensures EntryNodes(entries, i + 1) == EntryNodes(entries, i) + if entries[i].mode.ModeOther? then {}
      else {EntryNode(entries[i])}
  {
  }

  lemma EntryIsSucc(repo: Repo, gap: set<Oid>, id: Oid, i: nat)
    requires IsTree(repo, id) && i < |repo.objects[id].entries| && !repo.objects[id].entries[i].mode.ModeOther?
    ensures EntryNode(repo.objects[id].entries[i]) in Succ(repo, gap, T(id))
  {
  }

  lemma UnsupportedIsBroken(repo: Repo, gap: set<Oid>, root: Node, id: Oid, i: nat)
    requires IsTree(repo, id) && i < |repo.objects[id].entries| && repo.objects[id].entries[i].mode.ModeOther?
    requires Reaches(repo, gap, root, T(id))
    ensures !Sound(repo, T(id)) && Broken(repo, gap, root)
  {
    assert repo.objects[id].entries[i] in repo.objects[id].entries;
    BrokenAt(repo, gap, root, T(id));
  }

  // ---- The validation walk as a function ----

  datatype Walk = Refused | Walking(seen: set<Oid>, queue: seq<Oid>)

  /** The entries from i on: an object already seen in any position is taken as proved. */
  function EntriesWalk(repo: Repo, entries: seq<TreeEntry>, i: nat, seen: set<Oid>, queue: seq<Oid>): (w: Walk)
    requires i <= |entries|
    ensures w.Walking? ==> seen <= w.seen
    decreases |entries| - i
  {
    if i == |entries| then Walking(seen, queue)
    else
      var e := entries[i];
      match e.mode
      case ModeOther => Refused
      case ModeTree => EntriesWalk(repo, entries, i + 1, seen, queue + [e.id])
      case ModeBlob =>
        if e.id in seen then EntriesWalk(repo, entries, i + 1, seen, queue)
        else if e.id !in repo.objects then Refused
        else EntriesWalk(repo, entries, i + 1, seen + {e.id}, queue)
  }

  function TreeWalk(repo: Repo, seen: set<Oid>, queue: seq<Oid>): (w: Walk)
    ensures w.Walking? ==> seen <= w.seen
    decreases repo.objects.Keys - seen, |queue|
  {
    if queue == [] then Walking(seen, [])
    else if queue[0] in seen then TreeWalk(repo, seen, queue[1..])
    else if !IsTree(repo, queue[0]) then Refused
    else
      var w := EntriesWalk(repo, repo.objects[queue[0]].entries, 0, seen + {queue[0]}, queue[1..]);
      if w.Refused? then Refused else assert queue[0] in w.seen; TreeWalk(repo, w.seen, w.queue)
  }

  function ParentsWalk(repo: Repo, boundary: bool, parents: seq<Oid>, i: nat, queue: seq<Oid>): Walk
    requires i <= |parents|
    decreases |parents| - i
  {
    if i == |parents| then Walking({}, queue)
    else if IsCommit(repo, parents[i]) then ParentsWalk(repo, boundary, parents, i + 1, queue + [parents[i]])
    else if boundary then ParentsWalk(repo, boundary, parents, i + 1, queue)
    else Refused
  }

  /** Whether the walk accepts. */
  function Accepts(repo: Repo, shallow: Oid, seen: set<Oid>, queue: seq<Oid>): bool
    decreases repo.objects.Keys - seen, |queue|
  {
    if queue == [] then true
    else if queue[0] in seen then Accepts(repo, shallow, seen, queue[1..])
    else if !IsCommit(repo, queue[0]) then false
    else
      var w := TreeWalk(repo, seen + {queue[0]}, [repo.objects[queue[0]].tree]);
      if w.Refused? then false
      else
        var next := ParentsWalk(repo, queue[0] == shallow, ParentsOf(repo, queue[0]), 0, queue[1..]);
        if next.Refused? then false else assert queue[0] in w.seen; Accepts(repo, shallow, w.seen, next.queue)
  }

  // ---- Validation walks ----

  /** The entry loop of one tree: enqueues subtrees and proves that blobs are present. */
  method ValidateEntries(repo: Repo, ghost gap: set<Oid>, ghost root: Node, id: Oid, seen0: set<Oid>,
                         queue0: seq<Oid>, ghost proved0: set<Node>)
    returns (ok: bool, seen: set<Oid>, queue: seq<Oid>, ghost proved: set<Node>)
    requires IsTree(repo, id) && Reaches(repo, gap, root, T(id)) && seen0 == Ids(proved0)
    requires AllReached(repo, gap, root, AsTree, queue0)
    ensures seen0 <= seen == Ids(proved) && proved0 <= proved && queue0 <= queue
    ensures AllReached(repo, gap, root, AsTree, queue)
    ensures Proved(repo, gap, root, proved - proved0, {})
    ensures ok ==> Expanded(repo, gap, T(id), seen + Elements(queue))
    ensures !ok ==> Broken(repo, gap, root)
    ensures EntriesWalk(repo, repo.objects[id].entries, 0, seen0, queue0) == if ok then Walking(seen, queue)
      else Refused
  {
    var entries := repo.objects[id].entries;
    ok, seen, queue, proved := true, seen0, queue0, proved0;
    for i := 0 to |entries|
      invariant seen0 <= seen == Ids(proved) && proved0 <= proved && queue0 <= queue
      invariant AllReached(repo, gap, root, AsTree, queue)
      invariant Proved(repo, gap, root, proved - proved0, {})
      invariant forall j :: 0 <= j < i ==> !entries[j].mode.ModeOther?
      invariant EntriesWalk(repo, entries, i, seen, queue) == EntriesWalk(repo, entries, 0, seen0, queue0)
      invariant forall y :: y in EntryNodes(entries, i) ==> y.id in seen + Elements(queue)
    {
      var e := entries[i];
      MoreEntries(entries, i);
      if e.mode.ModeOther? {
        UnsupportedIsBroken(repo, gap, root, id, i);
        return false, seen, queue, proved;
      }
      EntryIsSucc(repo, gap, id, i);
      ReachesStep(repo, gap, root, T(id), EntryNode(e));
      if e.mode.ModeTree? {
        QueueGrows(queue, e.id);
        queue := queue + [e.id];
        continue;
      }
      if e.id in seen {
        continue;
      }
      if e.id !in repo.objects {
        BrokenAt(repo, gap, root, EntryNode(e));
        return false, seen, queue, proved;
      }
      seen, proved := seen + {e.id}, proved + {EntryNode(e)};
    }
  }

  method TreeClosureValidate(repo: Repo, ghost gap: set<Oid>, ghost root: Node, tree: Oid, seen0: set<Oid>,
                             ghost proved0: set<Node>)
    returns (ok: bool, seen: set<Oid>, ghost proved: set<Node>)
    requires Reaches(repo, gap, root, T(tree)) && seen0 == Ids(proved0)
    ensures seen0 <= seen == Ids(proved) && proved0 <= proved
    ensures ok ==> tree in seen && Proved(repo, gap, root, proved - proved0, seen)
    ensures !ok ==> Broken(repo, gap, root)
    ensures TreeWalk(repo, seen0, [tree]) == if ok then Walking(seen, []) else Refused
  {
    var queue := [tree];
    seen, ok, proved := seen0, true, proved0;
    assert queue[0] in Elements(queue);
    while |queue| > 0
      invariant seen0 <= seen == Ids(proved) && proved0 <= proved && AllReached(repo, gap, root, AsTree, queue)
      invariant Proved(repo, gap, root, proved - proved0, seen + Elements(queue))
      invariant TreeWalk(repo, seen, queue) == TreeWalk(repo, seen0, [tree])
      invariant tree in seen + Elements(queue)
      decreases repo.objects.Keys - seen, |queue|
    {
      var id := queue[0];
      QueueShrinks(queue);
      assert queue[0] in queue;
      queue := queue[1..];
      if id in seen {
        continue;
      }
      if !IsTree(repo, id) {
        BrokenAt(repo, gap, root, T(id));
        return false, seen, proved;
      }
      ghost var before, pending, rest := proved, seen, queue;
      ok, seen, queue, proved := ValidateEntries(repo, gap, root, id, seen + {id}, queue, proved + {T(id)});
      if !ok {
        return false, seen, proved;
      }
      PrefixElements(rest, queue);
      ProvedGrows(repo, gap, root, before - proved0, pending + ({id} + Elements(rest)), seen + Elements(queue));
      JoinProved(repo, gap, root, before, proved0, id, proved, seen + Elements(queue));
    }
  }

  lemma PrefixElements(a: seq<Oid>, b: seq<Oid>)
    requires a <= b
    ensures Elements(a) <= Elements(b)
  {
  }

  lemma ProvedGrows(repo: Repo, gap: set<Oid>, root: Node, nodes: set<Node>, ids: set<Oid>, more: set<Oid>)
    requires Proved(repo, gap, root, nodes, ids) && ids <= more
    ensures Proved(repo, gap, root, nodes, more)
  {
  }

  lemma JoinProved(repo: Repo, gap: set<Oid>, root: Node, before: set<Node>, proved0: set<Node>, id: Oid,
                   proved: set<Node>, ids: set<Oid>)
    requires proved0 <= before && before + {T(id)} <= proved && Reaches(repo, gap, root, T(id))
    requires Expanded(repo, gap, T(id), ids)
    requires Proved(repo, gap, root, before - proved0, ids) && Proved(repo, gap, root, proved - (before + {T(id)}), {})
    ensures Proved(repo, gap, root, proved - proved0, ids)
  {
    forall x | x in proved - proved0 ensures Reaches(repo, gap, root, x) && Expanded(repo, gap, x, ids) {
      if x !in before && x != T(id) { assert x in proved - (before + {T(id)}); }
    }
  }

  /** The parent loop of one commit: a missing parent is passed over only at the declared boundary. */
  method EnqueueParents(repo: Repo, shallow: Oid, id: Oid, queue0: seq<Oid>) returns (ok: bool, queue: seq<Oid>)
    requires IsCommit(repo, id)
    ensures queue0 <= queue
    ensures forall x :: x in queue ==> x in queue0 || (C(x) in Succ(repo, {shallow}, C(id)) && IsCommit(repo, x))
    ensures ok ==>
              forall y :: y in Succ(repo, {shallow}, C(id)) ==> y == T(repo.objects[id].tree) || y.id in Elements(queue)
    ensures !ok ==> exists y :: y in Succ(repo, {shallow}, C(id)) && !Sound(repo, y)
    ensures ParentsWalk(repo, id == shallow, ParentsOf(repo, id), 0, queue0) == if ok then Walking({}, queue)
      else Refused
  {
    var parents := ParentsOf(repo, id);
    ok, queue := true, queue0;
    for i := 0 to |parents|
      invariant queue0 <= queue
      invariant ParentsWalk(repo, id == shallow, parents, i, queue) ==
        ParentsWalk(repo, id == shallow, parents, 0, queue0)
      invariant forall x :: x in queue ==> x in queue0 || (C(x) in Succ(repo, {shallow}, C(id)) && IsCommit(repo, x))
      invariant forall j :: 0 <= j < i && (id == shallow ==> IsCommit(repo, parents[j])) ==>
                parents[j] in Elements(queue)
    {
      var parent := parents[i];
      assert parent in Elements(parents);
      if !IsCommit(repo, parent) {
        if id == shallow {
          continue;
        }
        assert C(parent) in Succ(repo, {shallow}, C(id)) && !Sound(repo, C(parent));
        return false, queue;
      }
      QueueGrows(queue, parent);
      queue := queue + [parent];
    }
  }

  /** One commit of the walk: its tree closure and its parents. */
  method ValidateCommit(repo: Repo, shallow: Oid, ghost root: Node, id: Oid, seen0: set<Oid>, queue0: seq<Oid>,
                        ghost proved0: set<Node>)
    returns (ok: bool, seen: set<Oid>, queue: seq<Oid>, ghost proved: set<Node>)
    requires Reaches(repo, {shallow}, root, C(id)) && AllReached(repo, {shallow}, root, AsCommit, queue0)
    requires seen0 == Ids(proved0)
    requires Proved(repo, {shallow}, root, proved0, seen0 + ({id} + Elements(queue0)))
    ensures ok ==> IsCommit(repo, id) && seen0 + {id} <= seen == Ids(proved) && proved0 + {C(id)} <= proved
    ensures ok ==>
              AllReached(repo, {shallow}, root, AsCommit, queue) &&
                Proved(repo, {shallow}, root, proved, seen + Elements(queue))
    ensures !ok ==> Broken(repo, {shallow}, root)
    ensures id !in seen0 ==> Accepts(repo, shallow, seen0, [id] + queue0) == (ok && Accepts(repo, shallow, seen, queue))
  {
    ghost var gap := {shallow};
    assert ([id] + queue0)[1..] == queue0;
    seen, queue, proved := seen0, queue0, proved0;
    if !IsCommit(repo, id) {
      BrokenAt(repo, gap, root, C(id));
      return false, seen, queue, proved;
    }
    var tree := repo.objects[id].tree;
    ReachesStep(repo, gap, root, C(id), T(tree));
    ok, seen, proved := TreeClosureValidate(repo, gap, root, tree, seen + {id}, proved + {C(id)});
    if !ok {
      return;
    }
    ok, queue := EnqueueParents(repo, shallow, id, queue);
    if !ok {
      ChildIsBroken(repo, gap, root, C(id));
      return;
    }
    ParentsReached(repo, gap, root, id, queue0, queue);
    PrefixElements(queue0, queue);
    CommitTurn(repo, gap, root, id, proved0, seen0 + ({id} + Elements(queue0)), proved, seen, seen + Elements(queue));
  }

  /** ValidateHistory, for every repository: it accepts every complete history, and what it accepts is
      complete whenever no object is referenced in two different positions. */
  method ValidateHistory(repo: Repo, head: Oid, shallow: Oid) returns (ok: bool)
    ensures Complete(repo, {shallow}, head) ==> ok
    ensures OneRole(repo, {shallow}, head) ==> (ok <==> Complete(repo, {shallow}, head))
    ensures ok == Accepts(repo, shallow, {}, [head])
  {
    ghost var gap, root := {shallow}, C(head);
    var queue, seen: set<Oid> := [head], {};
    ghost var proved: set<Node> := {};
    ReachesSelf(repo, gap, root);
    assert queue[0] in Elements(queue);
    while |queue| > 0
      invariant seen == Ids(proved) && AllReached(repo, gap, root, AsCommit, queue)
      invariant Proved(repo, gap, root, proved, seen + Elements(queue))
      invariant root in proved || (head in queue && proved == {})
      invariant Accepts(repo, shallow, seen, queue) == Accepts(repo, shallow, {}, [head])
      decreases repo.objects.Keys - seen, |queue|
    {
      var id := queue[0];
      QueueShrinks(queue);
      assert queue[0] in queue && (|queue| == 1 ==> queue[1..] == []);
      assert queue == [queue[0]] + queue[1..];
      queue := queue[1..];
      if id in seen {
        continue;
      }
      var good;
      good, seen, queue, proved := ValidateCommit(repo, shallow, root, id, seen, queue, proved);
      if !good {
        return false;
      }
    }
    AllProved(repo, gap, head, proved, seen);
    return true;
  }

  lemma ParentsReached(repo: Repo, gap: set<Oid>, root: Node, id: Oid, rest: seq<Oid>, queue: seq<Oid>)
    requires Reaches(repo, gap, root, C(id)) && AllReached(repo, gap, root, AsCommit, rest)
    requires forall x :: x in queue ==> x in rest || C(x) in Succ(repo, gap, C(id))
    ensures AllReached(repo, gap, root, AsCommit, queue)
  {
    forall x | x in queue ensures Reaches(repo, gap, root, C(x)) {
      if x !in rest { ReachesStep(repo, gap, root, C(id), C(x)); }
    }
  }

  lemma CommitTurn(repo: Repo, gap: set<Oid>, root: Node, id: Oid, before: set<Node>, pending: set<Oid>,
                   proved: set<Node>, seen: set<Oid>, ids: set<Oid>)
    requires IsCommit(repo, id) && Reaches(repo, gap, root, C(id)) && before + {C(id)} <= proved && pending <= ids
    requires seen <= ids
    requires Proved(repo, gap, root, before, pending) && Proved(repo, gap, root, proved - (before + {C(id)}), seen)
    requires forall y :: y in Succ(repo, gap, C(id)) ==> y.id in ids
    ensures Proved(repo, gap, root, proved, ids)
  {
    forall x | x in proved ensures Reaches(repo, gap, root, x) && Expanded(repo, gap, x, ids) {
      if x !in before && x != C(id) { assert x in proved - (before + {C(id)}); }
    }
  }

  lemma ChildIsBroken(repo: Repo, gap: set<Oid>, x: Node, y: Node)
    requires Reaches(repo, gap, x, y) && exists z :: z in Succ(repo, gap, y) && !Sound(repo, z)
    ensures Broken(repo, gap, x)
  {
    var z :| z in Succ(repo, gap, y) && !Sound(repo, z);
    ReachesStep(repo, gap, x, y, z);
  }

  /** With one role to each object, IDs already seen stand for nodes already proved. */
  lemma AllProved(repo: Repo, gap: set<Oid>, head: Oid, proved: set<Node>, seen: set<Oid>)
    requires C(head) in proved && seen == Ids(proved) && Proved(repo, gap, C(head), proved, seen)
    ensures OneRole(repo, gap, head) ==> Complete(repo, gap, head)
  {
    if OneRole(repo, gap, head) {
      forall x, y | x in proved && y in Succ(repo, gap, x) ensures y in proved {
        ReachesStep(repo, gap, C(head), x, y);
        var z :| z in proved && z.id == y.id;
      }
      assert ClosedUnder(repo, gap, proved);
      forall y | Reaches(repo, gap, C(head), y) ensures Sound(repo, y) {
        ClosedHoldsAll(repo, gap, proved, C(head), y);
      }
    }
  }

  // ---- Histories that are accepted although something is missing ----

  /** Object 3 is referenced as the blob "a" and as the directory "b"; its own file 1 is missing. */
  function BlobAndTree(): Repo
  {
    Repo(map[10 := Commit(5, []), 5 := Tree([TreeEntry("a", ModeBlob, 3), TreeEntry("b", ModeTree, 3)]),
             3 := Tree([TreeEntry("c", ModeBlob, 1)])], {})
  }

  /** The blob entry marks object 3 as seen, so the directory is never opened. */
  lemma BlobAndTreeIsAccepted(shallow: Oid)
    ensures Accepts(BlobAndTree(), shallow, {}, [10]) && !Complete(BlobAndTree(), {shallow}, 10)
  {
    var repo, gap := BlobAndTree(), {shallow};
    var entries := repo.objects[5].entries;
    assert EntriesWalk(repo, entries, 2, {10, 5, 3}, [3]) == Walking({10, 5, 3}, [3]);
    assert EntriesWalk(repo, entries, 1, {10, 5, 3}, []) == Walking({10, 5, 3}, [3]);
    assert {10, 5} + {3} == {10, 5, 3} && [] + [3] == [3];
    assert EntriesWalk(repo, entries, 0, {10, 5}, []) == Walking({10, 5, 3}, [3]);
    assert TreeWalk(repo, {10, 5, 3}, [3]) == TreeWalk(repo, {10, 5, 3}, [3][1..]);
    assert {10} + {5} == {10, 5} && [5][1..] == [];
    assert TreeWalk(repo, {10}, [5]) == Walking({10, 5, 3}, []);
    assert {} + {10} == {10} && [10][1..] == [];
    assert ParentsWalk(repo, 10 == shallow, [], 0, []) == Walking({}, []);
    assert Accepts(repo, shallow, {10, 5, 3}, []);
    ReachesSelf(repo, gap, C(10));
    ReachesStep(repo, gap, C(10), C(10), T(5));
    EntryIsSucc(repo, gap, 5, 1);
    ReachesStep(repo, gap, C(10), T(5), T(3));
    EntryIsSucc(repo, gap, 3, 0);
    ReachesStep(repo, gap, C(10), T(3), Node(AsBlob, 1));
    assert !Sound(repo, Node(AsBlob, 1));
  }

  /** Commit 12 is a parent and also stands where commit 11's tree names a directory. */
  function CommitAndTree(): Repo
  {
    Repo(map[13 := Commit(2, [12, 11]), 12 := Commit(2, []), 11 := Commit(6, []), 2 := Tree([]),
             6 := Tree([TreeEntry("d", ModeTree, 12)])], {})
  }

  /** Two roles are confused whichever they are: commit 12 was already seen when it is met as a tree. */
  lemma CommitAndTreeIsAccepted(shallow: Oid)
    ensures Accepts(CommitAndTree(), shallow, {}, [13]) && !Complete(CommitAndTree(), {shallow}, 13)
  {
    var repo, gap := CommitAndTree(), {shallow};
    CommitAndTreeWalk(repo, shallow);
    ReachesSelf(repo, gap, C(13));
    assert [12, 11][1] == 11 && 11 in Elements(ParentsOf(repo, 13));
    ReachesStep(repo, gap, C(13), C(13), C(11));
    ReachesStep(repo, gap, C(13), C(11), T(6));
    EntryIsSucc(repo, gap, 6, 0);
    ReachesStep(repo, gap, C(13), T(6), T(12));
    assert !Sound(repo, T(12));
  }

  lemma CommitAndTreeWalk(repo: Repo, shallow: Oid)
    requires repo == CommitAndTree()
    ensures Accepts(repo, shallow, {}, [13])
  {
    var all := {13, 2, 12, 11, 6};
    var entries := repo.objects[6].entries;
    assert [] + [12] == [12] && [12][1..] == [] && [6][1..] == [] && [2][1..] == [];
    assert EntriesWalk(repo, entries, 1, all, [12]) == Walking(all, [12]);
    assert EntriesWalk(repo, entries, 0, all, []) == Walking(all, [12]);
    assert TreeWalk(repo, all, [12]) == TreeWalk(repo, all, []);
    assert {13, 2, 12, 11} + {6} == all;
    assert TreeWalk(repo, {13, 2, 12, 11}, [6]) == Walking(all, []);
    assert ParentsWalk(repo, 11 == shallow, [], 0, []) == Walking({}, []);
    assert {13, 2, 12} + {11} == {13, 2, 12, 11} && [11][1..] == [];
    assert Accepts(repo, shallow, all, []);
    assert Accepts(repo, shallow, {13, 2, 12}, [11]);
    assert TreeWalk(repo, {13, 2, 12}, [2]) == Walking({13, 2, 12}, []);
    assert ParentsWalk(repo, 12 == shallow, [], 0, [11]) == Walking({}, [11]);
    assert {13, 2} + {12} == {13, 2, 12} && [12, 11][1..] == [11];
    assert Accepts(repo, shallow, {13, 2}, [12, 11]);
    CommitAndTreeStart(repo, shallow);
  }

  lemma CommitAndTreeStart(repo: Repo, shallow: Oid)
    requires repo == CommitAndTree() && Accepts(repo, shallow, {13, 2}, [12, 11])
    ensures Accepts(repo, shallow, {}, [13])
  {
    var parents := repo.objects[13].parents;
    assert EntriesWalk(repo, [], 0, {13, 2}, []) == Walking({13, 2}, []);
    assert {13} + {2} == {13, 2} && {} + {13} == {13} && [2][1..] == [] && [13][1..] == [];
    assert TreeWalk(repo, {13}, [2]) == Walking({13, 2}, []);
    assert [] + [12] == [12] && [12] + [11] == [12, 11];
    assert ParentsWalk(repo, 13 == shallow, parents, 2, [12, 11]) == Walking({}, [12, 11]);
    assert ParentsWalk(repo, 13 == shallow, parents, 1, [12]) == Walking({}, [12, 11]);
    assert ParentsWalk(repo, 13 == shallow, parents, 0, []) == Walking({}, [12, 11]);
  }

  // ---- Export walks ----

  /** What an export collects below a node: the objects some reference names. */
  ghost predicate Collected(repo: Repo, root: Node, found: set<Oid>)
  {
    forall y :: y in found <==> ReachesId(repo, {}, root, y)
  }

  /** Everything below the root, as soon as the walk has nothing left to do. */
  lemma ClosedIsCollected(repo: Repo, root: Node, nodes: set<Node>)
    requires root in nodes && ClosedUnder(repo, {}, nodes) && forall x :: x in nodes ==> Reaches(repo, {}, root, x)
    ensures Collected(repo, root, Ids(nodes))
  {
    forall y ensures y in Ids(nodes) <==> ReachesId(repo, {}, root, y) {
      if y in Ids(nodes) {
        var x :| x in nodes && x.id == y;
        assert Reaches(repo, {}, root, Node(x.role, y));
      }
      if ReachesId(repo, {}, root, y) {
        var role :| Reaches(repo, {}, root, Node(role, y));
        ClosedHoldsAll(repo, {}, nodes, root, Node(role, y));
      }
    }
  }

  ghost predicate NodesReached(repo: Repo, root: Node, nodes: set<Node>)
  {
    forall x :: x in nodes ==> Reaches(repo, {}, root, x)
  }

  ghost predicate Covered(repo: Repo, nodes: set<Node>, into: set<Node>)
  {
    forall x :: x in nodes ==> Succ(repo, {}, x) <= into
  }

  /** The entry loop of the export walk: subtrees are queued, blobs recorded without being read. */
  method CollectEntries(repo: Repo, ghost root: Node, id: Oid, found0: set<Oid>, queue0: seq<Oid>,
                        ghost nodes0: set<Node>)
    returns (ok: bool, found: set<Oid>, queue: seq<Oid>, ghost nodes: set<Node>)
    requires IsTree(repo, id) && Reaches(repo, {}, root, T(id)) && found0 == Ids(nodes0)
    requires NodesReached(repo, root, nodes0) && NodesReached(repo, root, NodesAs(AsTree, queue0))
    ensures found == Ids(nodes) && nodes0 <= nodes && (forall x :: x in nodes - nodes0 ==> x.role == AsBlob)
    ensures NodesReached(repo, root, nodes) && NodesReached(repo, root, NodesAs(AsTree, queue)) && queue0 <= queue
    ensures ok ==> Succ(repo, {}, T(id)) <= nodes + NodesAs(AsTree, queue)
    ensures !ok ==> Broken(repo, {}, root)
  {
    var entries := repo.objects[id].entries;
    ok, found, queue, nodes := true, found0, queue0, nodes0;
    for i := 0 to |entries|
      invariant found == Ids(nodes) && nodes0 <= nodes && (forall x :: x in nodes - nodes0 ==> x.role == AsBlob)
      invariant NodesReached(repo, root, nodes) && NodesReached(repo, root, NodesAs(AsTree, queue)) && queue0 <= queue
      invariant EntryNodes(entries, i) <= nodes + NodesAs(AsTree, queue)
    {
      var e := entries[i];
      MoreEntries(entries, i);
      if e.mode.ModeOther? {
        UnsupportedIsBroken(repo, {}, root, id, i);
        return false, found, queue, nodes;
      }
      EntryIsSucc(repo, {}, id, i);
      ReachesStep(repo, {}, root, T(id), EntryNode(e));
      if e.mode.ModeTree? {
        NodesGrow(AsTree, queue, e.id);
        queue := queue + [e.id];
      } else {
        found, nodes := found + {e.id}, nodes + {EntryNode(e)};
      }
    }
  }

  lemma NodesGrow(role: Role, queue: seq<Oid>, id: Oid)
    ensures NodesAs(role, queue + [id]) == NodesAs(role, queue) + {Node(role, id)}
  {
    var all := queue + [id];
    assert all[|queue|] == id;
    forall i | 0 <= i < |queue| ensures all[i] == queue[i] { }
  }

  lemma NodesShrink(role: Role, queue: seq<Oid>)
    requires queue != []
    ensures NodesAs(role, queue) == {Node(role, queue[0])} + NodesAs(role, queue[1..])
  {
    forall i | 0 < i < |queue| ensures queue[i] == queue[1..][i - 1] { }
  }

  lemma NodesPrefix(role: Role, a: seq<Oid>, b: seq<Oid>)
    requires a <= b
    ensures NodesAs(role, a) <= NodesAs(role, b)
  {
  }

  /** The tree closure of the export: every object some reference below the tree names. */
  method TreeClosure(repo: Repo, tree: Oid) returns (ok: bool, found: set<Oid>, ghost nodes: set<Node>)
    ensures ok ==> Collected(repo, T(tree), found) && found == Ids(nodes) && T(tree) in nodes
    ensures ok ==> ClosedUnder(repo, {}, nodes) && NodesReached(repo, T(tree), nodes)
    ensures !ok ==> Broken(repo, {}, T(tree))
  {
    ghost var root := T(tree);
    var queue, seen: set<Oid> := [tree], {};
    found, nodes := {}, {};
    ReachesSelf(repo, {}, root);
    NodesShrink(AsTree, queue);
    while |queue| > 0
      invariant found == Ids(nodes) && seen <= repo.objects.Keys
      invariant NodesReached(repo, root, nodes) && NodesReached(repo, root, NodesAs(AsTree, queue))
      invariant Covered(repo, nodes, nodes + NodesAs(AsTree, queue))
      invariant forall x :: x in seen ==> T(x) in nodes
      invariant root in nodes + NodesAs(AsTree, queue)
      decreases repo.objects.Keys - seen, |queue|
    {
      var id := queue[0];
      NodesShrink(AsTree, queue);
      queue := queue[1..];
      if id in seen {
        continue;
      }
      seen := seen + {id};
      if !IsTree(repo, id) {
        BrokenAt(repo, {}, root, T(id));
        return false, found, nodes;
      }
      ghost var before, rest := nodes, queue;
      ok, found, queue, nodes := CollectEntries(repo, root, id, found + {id}, queue, nodes + {T(id)});
      if !ok {
        return false, found, nodes;
      }
      NodesPrefix(AsTree, rest, queue);
      TreeCovered(repo, id, before, rest, nodes, queue);
    }
    ClosedIsCollected(repo, root, nodes);
    return true, found, nodes;
  }

  lemma TreeCovered(repo: Repo, id: Oid, before: set<Node>, rest: seq<Oid>, nodes: set<Node>, queue: seq<Oid>)
    requires before + {T(id)} <= nodes && NodesAs(AsTree, rest) <= NodesAs(AsTree, queue)
    requires Covered(repo, before, before + ({T(id)} + NodesAs(AsTree, rest)))
    requires Succ(repo, {}, T(id)) <= nodes + NodesAs(AsTree, queue)
    requires forall x :: x in nodes - (before + {T(id)}) ==> x.role == AsBlob
    ensures Covered(repo, nodes, nodes + NodesAs(AsTree, queue))
  {
    forall x | x in nodes ensures Succ(repo, {}, x) <= nodes + NodesAs(AsTree, queue) {
      if x !in before && x != T(id) { assert x.role == AsBlob; }
    }
  }

  /** Everything some reference below a commit names, the complete ancestor history included. */
  method ReachableFromCommit(repo: Repo, head: Oid) returns (ok: bool, found: set<Oid>)
    ensures ok ==> IsCommit(repo, head) && Collected(repo, C(head), found)
    ensures !ok ==> Broken(repo, {}, C(head))
  {
    ghost var root := C(head);
    var queue, seen: set<Oid> := [head], {};
    ghost var nodes: set<Node> := {};
    found := {};
    ReachesSelf(repo, {}, root);
    NodesShrink(AsCommit, queue);
    while |queue| > 0
      invariant found == Ids(nodes) && seen <= repo.objects.Keys
      invariant NodesReached(repo, root, nodes) && NodesReached(repo, root, NodesAs(AsCommit, queue))
      invariant Covered(repo, nodes, nodes + NodesAs(AsCommit, queue))
      invariant forall x :: x in seen ==> C(x) in nodes && IsCommit(repo, x)
      invariant head in seen || root in NodesAs(AsCommit, queue)
      decreases repo.objects.Keys - seen, |queue|
    {
      var id := queue[0];
      NodesShrink(AsCommit, queue);
      queue := queue[1..];
      if id in seen {
        continue;
      }
      if !IsCommit(repo, id) {
        BrokenAt(repo, {}, root, C(id));
        return false, found;
      }
      seen := seen + {id};
      var tree := repo.objects[id].tree;
      ReachesStep(repo, {}, root, C(id), T(tree));
      var good, closure;
      ghost var below: set<Node>;
      good, closure, below := TreeClosure(repo, tree);
      if !good {
        BrokenBelow(repo, {}, root, T(tree));
        return false, found;
      }
      CommitTaken(repo, root, id, nodes, queue, below);
      found, nodes := found + {id} + closure, nodes + {C(id)} + below;
      queue := queue + ParentsOf(repo, id);
    }
    ClosedIsCollected(repo, root, nodes);
    return true, found;
  }

  lemma IdsJoin(a: set<Node>, x: Node, b: set<Node>)
    ensures Ids(a + {x} + b) == Ids(a) + {x.id} + Ids(b)
  {
    assert forall n :: n in a + {x} + b ==> n in a || n == x || n in b;
    assert x in a + {x} + b && (forall n :: n in a ==> n in a + {x} + b) && forall n :: n in b ==> n in a + {x} + b;
  }

  /** One turn of the export walk: the commit and its closure are taken, its parents wait. */
  lemma CommitTaken(repo: Repo, root: Node, id: Oid, before: set<Node>, rest: seq<Oid>, below: set<Node>)
    requires IsCommit(repo, id) && Reaches(repo, {}, root, C(id)) && NodesReached(repo, root, before)
    requires NodesReached(repo, root, NodesAs(AsCommit, rest))
    requires Covered(repo, before, before + ({C(id)} + NodesAs(AsCommit, rest)))
    requires ClosedUnder(repo, {}, below) && T(repo.objects[id].tree) in below
    requires NodesReached(repo, T(repo.objects[id].tree), below)
    ensures var nodes, queue := before + {C(id)} + below, NodesAs(AsCommit, rest + ParentsOf(repo, id));
            && NodesReached(repo, root, nodes) && NodesReached(repo, root, queue)
            && Covered(repo, nodes, nodes + queue) && NodesAs(AsCommit, rest) <= queue
            && Ids(nodes) == Ids(before) + {id} + Ids(below)
  {
    IdsJoin(before, C(id), below);
    var waiting, queue := NodesAs(AsCommit, rest), NodesAs(AsCommit, rest + ParentsOf(repo, id));
    ParentsQueued(repo, id, rest);
    BelowReached(repo, root, id, below, waiting, queue);
    CommitCovered(repo, id, before, waiting, below, queue);
  }

  lemma CommitCovered(repo: Repo, id: Oid, before: set<Node>, rest: set<Node>, below: set<Node>, queue: set<Node>)
    requires IsCommit(repo, id) && ClosedUnder(repo, {}, below) && T(repo.objects[id].tree) in below && rest <= queue
    requires Covered(repo, before, before + ({C(id)} + rest))
    requires Succ(repo, {}, C(id)) <= {T(repo.objects[id].tree)} + queue
    ensures var nodes := before + {C(id)} + below; Covered(repo, nodes, nodes + queue)
  {
  }

  lemma BelowReached(repo: Repo, root: Node, id: Oid, below: set<Node>, rest: set<Node>, queue: set<Node>)
    requires IsCommit(repo, id) && Reaches(repo, {}, root, C(id)) && NodesReached(repo, T(repo.objects[id].tree), below)
    requires NodesReached(repo, root, rest) && queue <= rest + Succ(repo, {}, C(id))
    ensures NodesReached(repo, root, below) && NodesReached(repo, root, queue)
  {
    var tree := repo.objects[id].tree;
    ReachesStep(repo, {}, root, C(id), T(tree));
    forall x | x in below ensures Reaches(repo, {}, root, x) { ReachesThrough(repo, {}, root, T(tree), x); }
    forall x | x in queue ensures Reaches(repo, {}, root, x) {
      if x !in rest { ReachesStep(repo, {}, root, C(id), x); }
    }
  }

  lemma ParentsQueued(repo: Repo, id: Oid, queue: seq<Oid>)
    requires IsCommit(repo, id)
    ensures var all := NodesAs(AsCommit, queue + ParentsOf(repo, id));
            && NodesAs(AsCommit, queue) <= all && Succ(repo, {}, C(id)) <= {T(repo.objects[id].tree)} + all
            && all <= NodesAs(AsCommit, queue) + Succ(repo, {}, C(id))
  {
    var parents, all := ParentsOf(repo, id), queue + ParentsOf(repo, id);
    forall i | 0 <= i < |queue| ensures all[i] == queue[i] { }
    forall i | 0 <= i < |parents| ensures all[|queue| + i] == parents[i] && parents[i] in Elements(parents) { }
  }

  /** The objects of an incremental pack. */
  method ExportIncrement(repo: Repo, head: Oid, base: Oid) returns (ok: bool, objects: set<Oid>)
    ensures ok ==>
              objects != {} &&
              forall y :: y in objects <==> ReachesId(repo, {}, C(head), y) && !ReachesId(repo, {}, C(base), y)
    ensures !ok ==> Broken(repo, {}, C(head)) || Broken(repo, {}, C(base)) || ReachesId(repo, {}, C(base), head)
  {
    var headOk, headSet := ReachableFromCommit(repo, head);
    if !headOk {
      return false, {};
    }
    var baseOk, baseSet := ReachableFromCommit(repo, base);
    if !baseOk {
      return false, {};
    }
    objects := headSet - baseSet;
    ReachesSelf(repo, {}, C(head));
    assert ReachesId(repo, {}, C(head), head);
    assert head in headSet && (head !in objects ==> head in baseSet);
    ok := objects != {};
  }

  /** The objects of a state-complete checkpoint pack: the commit and its tree closure, no ancestors. */
  method ExportCheckpoint(repo: Repo, head: Oid) returns (ok: bool, objects: set<Oid>)
    ensures ok ==>
              IsCommit(repo, head) &&
              forall y :: y in objects <==> y == head || ReachesId(repo, {}, T(repo.objects[head].tree), y)
    ensures !ok ==> !IsCommit(repo, head) || Broken(repo, {}, T(repo.objects[head].tree))
  {
    if !IsCommit(repo, head) {
      return false, {};
    }
    var good, closure;
    ghost var below;
    good, closure, below := TreeClosure(repo, repo.objects[head].tree);
    return good, closure + {head};
  }
}
