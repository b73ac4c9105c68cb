/** What a compaction of internal/notebook/checkpoint.go does to readers: it publishes a checkpoint of
    a later head and keeps the later increments as their writers exported them. */
module Compaction {
  import opened GitGraph
  import opened Pack
  import opened Reconstruct

  /** The chain from head n on, with a checkpoint pack of that head in front. */
  function CutAt(c: Chain, n: nat, worker: Repo, pack: set<Oid>): Chain
    requires n < |c.heads| == |c.writers| == |c.packs|
  {
    Chain(c.u, c.heads[n..], [worker] + c.writers[n + 1..], [pack] + c.packs[n + 1..])
  }

  lemma CutIsPublished(c: Chain, n: nat, worker: Repo, pack: set<Oid>)
    requires Published(c) && n < |c.heads| && CheckpointOk(c.u, worker, c.heads[n], pack)
    ensures Published(CutAt(c, n, worker, pack))
  {
    var cut := CutAt(c, n, worker, pack);
    forall i | 0 <= i < |cut.heads| ensures WriterOk(cut, i) {
      if i > 0 { assert WriterOk(c, n + i); }
    }
  }

  /** Of the states that hold y, the compaction dropped every one published before i. */
  ghost predicate OnlyBefore(c: Chain, n: nat, i: nat, y: Oid)
    requires n <= i <= |c.heads|
  {
    HeldBetween(c, 0, n, y) && !HeldBetween(c, n, i, y)
  }

  ghost predicate KeptIncrementLacks(c: Chain, n: nat, i: nat, y: Oid)
    requires |c.heads| == |c.writers|
  {
    n < i < |c.heads| && LeftOut(c, i, y) && OnlyBefore(c, n, i, y)
  }

  lemma CutStates(c: Chain, n: nat, worker: Repo, pack: set<Oid>, i: nat, y: Oid)
    requires n < |c.heads| == |c.writers| == |c.packs| && n <= i <= |c.heads|
    ensures HeldBetween(CutAt(c, n, worker, pack), 0, i - n, y) <==> HeldBetween(c, n, i, y)
  {
    var cut := CutAt(c, n, worker, pack);
    if HeldBetween(c, n, i, y) {
      var k :| n <= k < i && StateHolds(c.u, c.heads[k], y);
      assert cut.heads[k - n] == c.heads[k];
    }
  }

  /** A chain that could be rebuilt can be rebuilt from its compaction at head n exactly when no kept
      increment left out an object of its state that only states before n hold. */
  lemma CompactionRebuildsExactlyWhen(c: Chain, n: nat, worker: Repo, pack: set<Oid>)
    requires Published(c) && Rebuilds(c) && n < |c.heads| && CheckpointOk(c.u, worker, c.heads[n], pack)
    ensures Published(CutAt(c, n, worker, pack))
    ensures Rebuilds(CutAt(c, n, worker, pack)) <==> !exists i: nat, y :: KeptIncrementLacks(c, n, i, y)
  {
    var cut := CutAt(c, n, worker, pack);
    CutIsPublished(c, n, worker, pack);
    RebuildsExactlyWhenNeverStale(c);
    RebuildsExactlyWhenNeverStale(cut);
    forall i, y | n < i < |c.heads| && LeftOut(c, i, y)
      ensures HeldBetween(cut, 0, i - n, y) <==> !OnlyBefore(c, n, i, y)
    {
      assert NothingStale(c, i) && HeldBetween(c, 0, i, y);
      CutStates(c, n, worker, pack, i, y);
    }
    if NeverStale(cut) {
      forall i: nat, y ensures !KeptIncrementLacks(c, n, i, y) {
        if n < i < |c.heads| && LeftOut(c, i, y) {
          assert LeftOut(cut, i - n, y) && NothingStale(cut, i - n);
        }
      }
    }
    if !exists i: nat, y :: KeptIncrementLacks(c, n, i, y) {
      forall j, y | 0 < j < |cut.heads| && LeftOut(cut, j, y) ensures HeldBetween(cut, 0, j, y) {
        assert LeftOut(c, n + j, y);
        assert !KeptIncrementLacks(c, n, n + j, y);
      }
    }
  }

  /** Kept increments whose writers already knew a boundary at the new checkpoint or later are safe. */
  lemma LaterBoundariesSuffice(c: Chain, n: nat, worker: Repo, pack: set<Oid>)
    requires Published(c) && n < |c.heads| && CheckpointOk(c.u, worker, c.heads[n], pack)
    requires forall i :: n < i < |c.heads| ==> exists b :: n <= b < i && c.heads[b] in c.writers[i].grafts
    ensures Published(CutAt(c, n, worker, pack)) && Rebuilds(CutAt(c, n, worker, pack))
  {
    var cut := CutAt(c, n, worker, pack);
    CutIsPublished(c, n, worker, pack);
    forall j | 0 < j < |cut.heads| ensures StopsWithin(cut, j) {
      var b :| n <= b < n + j && c.heads[b] in c.writers[n + j].grafts;
      assert cut.heads[b - n] in cut.writers[j].grafts;
    }
    BoundarySuffices(cut);
    RebuildsExactlyWhenNeverStale(cut);
  }

  // ---- A file that is removed and brought back ----

  /** Commit 10 holds a file, commit 11 removes it, commit 12 brings it back. */
  function Objects(): map<Oid, Object>
  {
    map[1 := Blob("x"), 2 := Tree([TreeEntry("f", ModeBlob, 1)]), 3 := Tree([]),
        10 := Commit(2, []), 11 := Commit(3, [10]), 12 := Commit(2, [11])]
  }

  /** A workspace that holds all of it and has recorded these boundaries. */
  function Workspace(grafts: set<Oid>): Repo { Repo(Objects(), grafts) }

  const FileNodes: set<Node> := {T(2), Node(AsBlob, 1)}

  /** The references of each object, as far as the boundaries let the walk go. */
  lemma Steps(grafts: set<Oid>)
    ensures var w := Workspace(grafts);
            && Succ(w, {}, T(2)) == {Node(AsBlob, 1)} && Succ(w, {}, T(3)) == {} && Succ(w, {}, Node(AsBlob, 1)) == {}
            && Succ(w, {}, C(10)) == {T(2)}
            && Succ(w, {}, C(11)) == {T(3)} + (if 11 in grafts then {} else {C(10)})
            && Succ(w, {}, C(12)) == {T(2)} + (if 12 in grafts then {} else {C(11)})
  {
    var w := Workspace(grafts);
    var entries := w.objects[2].entries;
    assert EntryNode(entries[0]) == Node(AsBlob, 1);
    assert EntryNodes(entries, 1) == {Node(AsBlob, 1)};
    OneParent(10);
    OneParent(11);
    NoParent();
    NodesOfOne(w, 10);
    NodesOfOne(w, 11);
    NodesOfOne(w, 12);
  }

  lemma OneParent(p: Oid)
    ensures Elements([p]) == {p}
  {
    assert [p][0] == p;
  }

  lemma NoParent()
    ensures Elements([]) == {}
  {
  }

  lemma NodesOfOne(w: Repo, id: Oid)
    requires IsCommit(w, id)
    ensures Succ(w, {}, C(id)) == {T(w.objects[id].tree)} + set p | p in Elements(ParentsOf(w, id)) :: C(p)
  {
  }

  ghost predicate Walk(w: Repo, x: Node, nodes: set<Node>) { forall y :: Reaches(w, {}, x, y) <==> y in nodes }

  lemma WalkIs(w: Repo, x: Node, nodes: set<Node>)
    requires x in nodes && ClosedUnder(w, {}, nodes) && forall y :: y in nodes ==> Reaches(w, {}, x, y)
    ensures Walk(w, x, nodes)
  {
    forall y | Reaches(w, {}, x, y) ensures y in nodes { ClosedHoldsAll(w, {}, nodes, x, y); }
  }

  lemma WalkAbove(w: Repo, x: Node, z: Node, below: set<Node>, nodes: set<Node>)
    requires z in Succ(w, {}, x) && Walk(w, z, below) && nodes == {x} + below
    requires forall y :: y in Succ(w, {}, x) ==> y in nodes
    ensures Walk(w, x, nodes)
  {
    ReachesSelf(w, {}, x);
    ReachesStep(w, {}, x, x, z);
    forall y | y in nodes ensures Reaches(w, {}, x, y) {
      if y != x { ReachesThrough(w, {}, x, z, y); }
    }
    forall y, s | y in below && s in Succ(w, {}, y) ensures s in below { ReachesStep(w, {}, z, y, s); }
    WalkIs(w, x, nodes);
  }

  function Below11(grafts: set<Oid>): set<Node>
  {
    if 11 in grafts then {C(11), T(3)} else {C(11), T(3), C(10)} + FileNodes
  }

  function Below12(grafts: set<Oid>): set<Node>
  {
    {C(12)} + FileNodes + if 12 in grafts then {} else Below11(grafts)
  }

  lemma Walks(grafts: set<Oid>)
    ensures var w := Workspace(grafts);
            && Walk(w, T(2), FileNodes) && Walk(w, T(3), {T(3)}) && Walk(w, C(10), {C(10)} + FileNodes)
            && Walk(w, C(11), Below11(grafts)) && Walk(w, C(12), Below12(grafts))
  {
    var w := Workspace(grafts);
    Steps(grafts);
    ReachesSelf(w, {}, Node(AsBlob, 1));
    WalkIs(w, Node(AsBlob, 1), {Node(AsBlob, 1)});
    WalkAbove(w, T(2), Node(AsBlob, 1), {Node(AsBlob, 1)}, FileNodes);
    ReachesSelf(w, {}, T(3));
    WalkIs(w, T(3), {T(3)});
    WalkAbove(w, C(10), T(2), FileNodes, {C(10)} + FileNodes);
    WalkOf11(w, grafts);
    WalkOf12(w, grafts);
  }

  lemma WalkOf11(w: Repo, grafts: set<Oid>)
    requires Walk(w, T(3), {T(3)}) && Walk(w, C(10), {C(10)} + FileNodes)
    requires Succ(w, {}, C(11)) == {T(3)} + if 11 in grafts then {} else {C(10)}
    ensures Walk(w, C(11), Below11(grafts))
  {
    if 11 in grafts {
      WalkAbove(w, C(11), T(3), {T(3)}, {C(11), T(3)});
    } else {
      ReachesSelf(w, {}, C(11));
      ReachesStep(w, {}, C(11), C(11), T(3));
      ReachesStep(w, {}, C(11), C(11), C(10));
      forall y | y in {C(10)} + FileNodes ensures Reaches(w, {}, C(11), y) { ReachesThrough(w, {}, C(11), C(10), y); }
      WalkJoin(w, C(11), {T(3)}, {C(10)} + FileNodes, Below11(grafts), T(3), C(10));
    }
  }

  lemma WalkOf12(w: Repo, grafts: set<Oid>)
    requires Walk(w, T(2), FileNodes) && Walk(w, C(11), Below11(grafts))
    requires Succ(w, {}, C(12)) == {T(2)} + if 12 in grafts then {} else {C(11)}
    ensures Walk(w, C(12), Below12(grafts))
  {
    if 12 in grafts {
      WalkAbove(w, C(12), T(2), FileNodes, Below12(grafts));
    } else {
      ReachesSelf(w, {}, C(12));
      ReachesStep(w, {}, C(12), C(12), T(2));
      ReachesStep(w, {}, C(12), C(12), C(11));
      forall y | y in FileNodes ensures Reaches(w, {}, C(12), y) { ReachesThrough(w, {}, C(12), T(2), y); }
      forall y | y in Below11(grafts) ensures Reaches(w, {}, C(12), y) { ReachesThrough(w, {}, C(12), C(11), y); }
      WalkJoin(w, C(12), FileNodes, Below11(grafts), Below12(grafts), T(2), C(11));
    }
  }

  lemma WalkJoin(w: Repo, x: Node, a: set<Node>, b: set<Node>, nodes: set<Node>, za: Node, zb: Node)
    requires Walk(w, za, a) && Walk(w, zb, b) && nodes == {x} + a + b && forall y :: y in nodes ==> Reaches(w, {}, x, y)
    requires Succ(w, {}, x) <= nodes
    ensures Walk(w, x, nodes)
  {
    forall y, s | y in a && s in Succ(w, {}, y) ensures s in a { ReachesStep(w, {}, za, y, s); }
    forall y, s | y in b && s in Succ(w, {}, y) ensures s in b { ReachesStep(w, {}, zb, y, s); }
    WalkIs(w, x, nodes);
  }

  lemma WalkIds(w: Repo, x: Node, nodes: set<Node>, ids: set<Oid>)
    requires Walk(w, x, nodes) && ids == Ids(nodes)
    ensures forall y :: ReachesId(w, {}, x, y) <==> y in ids
  {
    forall y ensures ReachesId(w, {}, x, y) <==> y in ids {
      if y in ids {
        var n :| n in nodes && n.id == y;
        assert Reaches(w, {}, x, Node(n.role, y));
      }
    }
  }

  lemma BelowIds(grafts: set<Oid>)
    ensures Ids(FileNodes) == {2, 1} && Ids({T(3)}) == {3}
    ensures Ids(Below11(grafts)) == if 11 in grafts then {11, 3} else {11, 3, 10, 2, 1}
    ensures 12 !in grafts ==> Ids(Below12(grafts)) == {12, 2, 1} + Ids(Below11(grafts))
  {
    assert T(2) in FileNodes && Node(AsBlob, 1) in FileNodes;
    assert C(11) in Below11(grafts) && T(3) in Below11(grafts) && C(12) in Below12(grafts);
    assert forall x :: x in FileNodes ==> x in Below12(grafts);
    assert 11 !in grafts ==> C(10) in Below11(grafts) && forall x :: x in FileNodes ==> x in Below11(grafts);
    assert 12 !in grafts ==> forall x :: x in Below11(grafts) ==> x in Below12(grafts);
  }

  lemma AllPresent(grafts: set<Oid>)
    ensures var w := Workspace(grafts);
            AllSound(w, T(2)) && AllSound(w, T(3)) && AllSound(w, C(10)) && AllSound(w, C(11)) && AllSound(w, C(12))
  {
    var w := Workspace(grafts);
    Walks(grafts);
    forall x | x in {C(10), C(11), C(12), T(3)} + FileNodes ensures Sound(w, x) { }
    assert Below11(grafts) <= {C(10), C(11), C(12), T(3)} + FileNodes;
    assert Below12(grafts) <= {C(10), C(11), C(12), T(3)} + FileNodes;
  }

  /** What the writer of commit 12 exports against 11: the file is new to its walk only when the walk
      stops at 11. */
  function PackOf12(grafts: set<Oid>): set<Oid> { if 11 in grafts then {12, 2, 1} else {12} }

  function Ids11(grafts: set<Oid>): set<Oid> { if 11 in grafts then {11, 3} else {11, 3, 10, 2, 1} }

  lemma OldIdWalks(w: Repo)
    requires Walk(w, T(2), FileNodes) && Walk(w, T(3), {T(3)}) && Walk(w, C(10), {C(10)} + FileNodes)
    ensures forall y :: ReachesId(w, {}, T(2), y) <==> y in {2, 1}
    ensures forall y :: ReachesId(w, {}, T(3), y) <==> y in {3}
    ensures forall y :: ReachesId(w, {}, C(10), y) <==> y in {10, 2, 1}
  {
    BelowIds({});
    IdsOf10();
    WalkIds(w, T(2), FileNodes, {2, 1});
    WalkIds(w, T(3), {T(3)}, {3});
    WalkIds(w, C(10), {C(10)} + FileNodes, {10, 2, 1});
  }

  /** The walks of a workspace, as sets of objects. */
  lemma IdWalks(grafts: set<Oid>)
    ensures var w := Workspace(grafts);
            && (forall y :: ReachesId(w, {}, T(2), y) <==> y in {2, 1})
            && (forall y :: ReachesId(w, {}, T(3), y) <==> y in {3})
            && (forall y :: ReachesId(w, {}, C(10), y) <==> y in {10, 2, 1})
            && (forall y :: ReachesId(w, {}, C(11), y) <==> y in Ids11(grafts))
            && (12 !in grafts ==> forall y :: ReachesId(w, {}, C(12), y) <==> y in {12, 2, 1} + Ids11(grafts))
  {
    var w := Workspace(grafts);
    Walks(grafts);
    BelowIds(grafts);
    OldIdWalks(w);
    WalkIds(w, C(11), Below11(grafts), Ids11(grafts));
    if 12 !in grafts { WalkIds(w, C(12), Below12(grafts), {12, 2, 1} + Ids11(grafts)); }
  }

  lemma Checkpoints(grafts: set<Oid>)
    ensures CheckpointOk(Workspace({}), Workspace(grafts), 10, {10, 2, 1})
    ensures CheckpointOk(Workspace({}), Workspace(grafts), 11, {11, 3})
  {
    AllPresent(grafts);
    IdWalks(grafts);
  }

  lemma Increment12(grafts: set<Oid>)
    requires 12 !in grafts
    ensures IncrementOk(Workspace({}), Workspace(grafts), 12, 11, PackOf12(grafts))
  {
    AllPresent(grafts);
    IdWalks(grafts);
  }

  lemma Increment11(grafts: set<Oid>)
    requires 11 !in grafts
    ensures IncrementOk(Workspace({}), Workspace(grafts), 11, 10, {11, 3})
  {
    AllPresent(grafts);
    IdWalks(grafts);
  }

  lemma IdsOf10()
    ensures Ids({C(10)} + FileNodes) == {10, 2, 1}
  {
    assert C(10) in {C(10)} + FileNodes && T(2) in {C(10)} + FileNodes && Node(AsBlob, 1) in {C(10)} + FileNodes;
  }

  /** The objects of the three states. */
  lemma StatesOf(u: Repo)
    requires u == Workspace({})
    ensures forall y :: StateHolds(u, 10, y) <==> y in {10, 2, 1}
    ensures forall y :: StateHolds(u, 11, y) <==> y in {11, 3}
    ensures forall y :: StateHolds(u, 12, y) <==> y in {12, 2, 1}
  {
    IdWalks({});
    StateIds(u, 10, 2);
    StateIds(u, 11, 3);
    StateIds(u, 12, 2);
  }

  lemma StateIds(u: Repo, head: Oid, tree: Oid)
    requires IsCommit(u, head) && u.objects[head].tree == tree
    ensures forall y :: StateHolds(u, head, y) <==> y == head || ReachesId(u, {}, T(tree), y)
  {
    forall y ensures StateHolds(u, head, y) <==> y == head || ReachesId(u, {}, T(tree), y) {
      if y == head { assert InState(u, head, Node(AsCommit, y)); }
      if ReachesId(u, {}, T(tree), y) {
        var role :| Reaches(u, {}, T(tree), Node(role, y));
        assert InState(u, head, Node(role, y));
      }
    }
  }

  // ---- Workspaces that do not know the checkpoint ----

  /** How a workspace that accepted head 11 came to work on the checkpoint of that head: it replaced the
      manifest itself and got the answer, or lost the answer and looked its checkpoint up; it found its
      own accepted head unchanged under another worker's checkpoint; or it imported the manifest. */
  datatype Arrival = Answered | AnswerLost | HeadReused | ManifestImported

  /** The boundaries recorded afterwards: two of the four ways record the checkpoint. */
  function BoundaryAfter(grafts: set<Oid>, checkpoint: Oid, way: Arrival): set<Oid>
  {
    if way.Answered? || way.ManifestImported? then grafts + {checkpoint} else grafts
  }

  /** 10 was published first, 11 after it and checkpointed; this workspace then publishes 12. */
  function PublishedAfter(way: Arrival): Chain
  {
    var grafts := BoundaryAfter({10}, 11, way);
    Chain(Workspace({}), [11, 12], [Workspace(grafts), Workspace(grafts)], [{11, 3}, PackOf12(grafts)])
  }

  lemma AfterIsPublished(way: Arrival)
    ensures Published(PublishedAfter(way))
  {
    var c, grafts := PublishedAfter(way), BoundaryAfter({10}, 11, way);
    Checkpoints(grafts);
    Increment12(grafts);
    assert WriterOk(c, 0) && WriterOk(c, 1);
  }

  /** Readers can rebuild the new head exactly when the writer had recorded the checkpoint; the answer
      that got lost and the head that was reused both lose the file. */
  lemma BoundaryDecides(way: Arrival)
    ensures Published(PublishedAfter(way))
    ensures Rebuilds(PublishedAfter(way)) <==> way.Answered? || way.ManifestImported?
  {
    var c, grafts := PublishedAfter(way), BoundaryAfter({10}, 11, way);
    AfterIsPublished(way);
    RebuildsExactlyWhenNeverStale(c);
    if 11 in grafts {
      assert c.heads[0] in c.writers[1].grafts && StopsWithin(c, 1);
      BoundarySuffices(c);
    } else {
      FileIsLeftOut(c, grafts, 1);
      assert !HeldBetween(c, 0, 1, 2) by { StatesOf(c.u); }
      assert !NothingStale(c, 1);
    }
  }

  /** A walk past commit 11 meets the file of 10, so the increment of 12 leaves it out. */
  lemma FileIsLeftOut(c: Chain, grafts: set<Oid>, i: nat)
    requires 0 < i < |c.heads| == |c.writers| && c.u == Workspace({}) && 11 !in grafts
    requires c.heads[i] == 12 && c.heads[i - 1] == 11 && c.writers[i] == Workspace(grafts)
    ensures LeftOut(c, i, 2)
  {
    StatesOf(c.u);
    IdWalks(grafts);
  }

  // ---- Increments a compaction keeps ----

  /** Every writer recorded the boundary of the manifest it read: the first checkpoint, 10. */
  function BeforeCompaction(): Chain
  {
    var w := Workspace({10});
    Chain(Workspace({}), [10, 11, 12], [w, w, w], [{10, 2, 1}, {11, 3}, {12}])
  }

  lemma BeforeIsPublished()
    ensures Published(BeforeCompaction()) && CheckpointOk(Workspace({}), Workspace({10}), 11, {11, 3})
  {
    Checkpoints({10});
    Increment11({10});
    Increment12({10});
    var c := BeforeCompaction();
    assert WriterOk(c, 0) && WriterOk(c, 1) && WriterOk(c, 2);
  }

  lemma BeforeRebuilds()
    ensures Published(BeforeCompaction()) && BoundaryKnown(BeforeCompaction()) && Rebuilds(BeforeCompaction())
  {
    var c := BeforeCompaction();
    BeforeIsPublished();
    assert c.heads[0] in c.writers[1].grafts && c.heads[0] in c.writers[2].grafts;
    assert StopsWithin(c, 1) && StopsWithin(c, 2);
    BoundarySuffices(c);
    RebuildsExactlyWhenNeverStale(c);
  }

  /** Compacting the prefix up to 11 keeps the increment of 12, which leaves the file to the state of 10. */
  lemma CompactionLosesState()
    ensures Published(BeforeCompaction()) && BoundaryKnown(BeforeCompaction()) && Rebuilds(BeforeCompaction())
    ensures CheckpointOk(Workspace({}), Workspace({10}), 11, {11, 3})
    ensures Published(CutAt(BeforeCompaction(), 1, Workspace({10}), {11, 3}))
    ensures !Rebuilds(CutAt(BeforeCompaction(), 1, Workspace({10}), {11, 3}))
  {
    var c, w := BeforeCompaction(), Workspace({10});
    BeforeRebuilds();
    BeforeIsPublished();
    CompactionRebuildsExactlyWhen(c, 1, w, {11, 3});
    FileIsLeftOut(c, {10}, 2);
    assert OnlyBefore(c, 1, 2, 2) by {
      StatesOf(c.u);
      assert StateHolds(c.u, c.heads[0], 2);
    }
    assert KeptIncrementLacks(c, 1, 2, 2);
  }
}
