/** What importing a checkpoint and its increments into an empty repository rebuilds (the import of
    internal/notebook/remote.go over what internal/git/pack.go exports), and what a compaction keeps. */
module Reconstruct {
  import opened GitGraph
  import opened Pack

  /** A repository that holds some of the notebook's objects; its boundary is its own. */
  ghost predicate Holds(u: Repo, w: Repo)
  {
    forall x :: x in w.objects ==> x in u.objects && w.objects[x] == u.objects[x]
  }

  /** Node y belongs to the state commit c publishes: the commit or its tree closure. */
  ghost predicate InState(u: Repo, c: Oid, y: Node)
    requires IsCommit(u, c)
  {
    y == C(c) || Reaches(u, {}, T(u.objects[c].tree), y)
  }

  /** The object belongs to the state, whatever it stands for there. */
  ghost predicate StateHolds(u: Repo, c: Oid, id: Oid)
  {
    IsCommit(u, c) && exists role :: InState(u, c, Node(role, id))
  }

  ghost predicate AllSound(w: Repo, x: Node) { forall y :: Reaches(w, {}, x, y) ==> Sound(w, y) }

  lemma AllSoundBelow(w: Repo, x: Node, y: Node)
    requires AllSound(w, x) && Reaches(w, {}, x, y)
    ensures AllSound(w, y)
  {
    forall z | Reaches(w, {}, y, z) ensures Sound(w, z) { ReachesThrough(w, {}, x, y, z); }
  }

  // ---- Trees look the same in every repository that holds them ----

  lemma TreeStepSame(u: Repo, w: Repo, gap: set<Oid>, x: Node)
    requires Holds(u, w) && Sound(w, x) && x.role != AsCommit
    ensures Succ(w, gap, x) == Succ(u, {}, x) && forall y :: y in Succ(w, gap, x) ==> y.role != AsCommit
  {
    if x.role.AsBlob? {
      assert Succ(w, gap, x) == {} == Succ(u, {}, x);
    }
  }

  lemma {:induction false} TreePathSame(u: Repo, w: Repo, gap: set<Oid>, t: Oid, y: Node, p: seq<Node>, down: bool)
    requires Holds(u, w) && (forall z :: Reaches(w, gap, T(t), z) ==> Sound(w, z))
    requires if down then Connects(w, gap, p, T(t), y) else Connects(u, {}, p, T(t), y)
    ensures Reaches(u, {}, T(t), y) && Reaches(w, gap, T(t), y) && y.role != AsCommit
    decreases |p|
  {
    if |p| == 1 {
      ReachesSelf(u, {}, T(t));
      ReachesSelf(w, gap, T(t));
    } else {
      var q := p[..|p| - 1];
      var x := q[|q| - 1];
      assert if down then Connects(w, gap, q, T(t), x) else Connects(u, {}, q, T(t), x);
      TreePathSame(u, w, gap, t, x, q, down);
      TreeStepSame(u, w, gap, x);
      ReachesStep(u, {}, T(t), x, y);
      ReachesStep(w, gap, T(t), x, y);
    }
  }

  /** Below a tree that a repository holds completely, its walk is the walk over all objects, whatever
      commit boundary it declares. */
  lemma TreeReachSame(u: Repo, w: Repo, gap: set<Oid>, t: Oid, y: Node)
    requires Holds(u, w) && forall z :: Reaches(w, gap, T(t), z) ==> Sound(w, z)
    ensures Reaches(u, {}, T(t), y) <==> Reaches(w, gap, T(t), y)
    ensures Reaches(u, {}, T(t), y) ==> y.role != AsCommit
  {
    if Reaches(u, {}, T(t), y) {
      var p :| Connects(u, {}, p, T(t), y);
      TreePathSame(u, w, gap, t, y, p, false);
    }
    if Reaches(w, gap, T(t), y) {
      var p :| Connects(w, gap, p, T(t), y);
      TreePathSame(u, w, gap, t, y, p, true);
    }
  }

  // ---- A published chain ----

  /** Heads linked parent to child, each exported by a writer that could read its whole walk. */
  datatype Chain = Chain(u: Repo, heads: seq<Oid>, writers: seq<Repo>, packs: seq<set<Oid>>)

  ghost predicate IncrementPack(w: Repo, head: Oid, base: Oid, pack: set<Oid>)
  {
    forall y :: y in pack <==> ReachesId(w, {}, C(head), y) && !ReachesId(w, {}, C(base), y)
  }

  ghost predicate CheckpointPack(w: Repo, head: Oid, pack: set<Oid>)
    requires IsCommit(w, head)
  {
    forall y :: y in pack <==> y == head || ReachesId(w, {}, T(w.objects[head].tree), y)
  }

  ghost predicate CheckpointOk(u: Repo, w: Repo, head: Oid, pack: set<Oid>)
  {
    Holds(u, w) && IsCommit(w, head) && AllSound(w, T(w.objects[head].tree)) && CheckpointPack(w, head, pack)
  }

  ghost predicate IncrementOk(u: Repo, w: Repo, head: Oid, base: Oid, pack: set<Oid>)
  {
    && Holds(u, w) && IsCommit(w, head) && u.objects[head].parents == [base]
    && AllSound(w, C(head)) && AllSound(w, C(base)) && IncrementPack(w, head, base, pack)
  }

  ghost predicate WriterOk(c: Chain, i: nat)
    requires i < |c.heads| == |c.writers| == |c.packs|
  {
    if i == 0 then CheckpointOk(c.u, c.writers[0], c.heads[0], c.packs[0])
    else IncrementOk(c.u, c.writers[i], c.heads[i], c.heads[i - 1], c.packs[i])
  }

  ghost predicate Published(c: Chain)
  {
    && 0 < |c.heads| == |c.writers| == |c.packs| && c.u.grafts == {}
    && forall i :: 0 <= i < |c.heads| ==> WriterOk(c, i)
  }

  /** Each writer's walk stopped at the chain's checkpoint or at a later head of the chain. */
  ghost predicate BoundaryKnown(c: Chain)
    requires Published(c)
  {
    forall i :: 0 < i < |c.heads| ==> StopsWithin(c, i)
  }

  ghost predicate StopsWithin(c: Chain, i: nat)
    requires 0 < i < |c.heads| == |c.writers|
  {
    exists b :: 0 <= b < i && c.heads[b] in c.writers[i].grafts
  }

  lemma HeadIsCommit(c: Chain, i: nat)
    requires Published(c) && i < |c.heads|
    ensures IsCommit(c.u, c.heads[i])
    ensures Holds(c.u, c.writers[i]) && IsCommit(c.writers[i], c.heads[i])
    ensures AllSound(c.writers[i], T(c.u.objects[c.heads[i]].tree))
  {
    assert WriterOk(c, i);
    var w, tree := c.writers[i], c.u.objects[c.heads[i]].tree;
    if i > 0 {
      ReachesSelf(w, {}, C(c.heads[i]));
      ReachesStep(w, {}, C(c.heads[i]), C(c.heads[i]), T(tree));
      AllSoundBelow(w, C(c.heads[i]), T(tree));
    }
  }

  /** A walk down the chain in a repository with a boundary at head b only meets states b to j. */
  lemma {:induction false} WalkStaysInChain(c: Chain, w: Repo, b: nat, j: nat, y: Node, p: seq<Node>) returns (k: nat)
    requires Published(c) && Holds(c.u, w) && b <= j < |c.heads| && c.heads[b] in w.grafts
    requires AllSound(w, C(c.heads[j])) && Connects(w, {}, p, C(c.heads[j]), y)
    ensures b <= k <= j && IsCommit(c.u, c.heads[k]) && InState(c.u, c.heads[k], y)
    decreases |p|
  {
    HeadIsCommit(c, j);
    if |p| == 1 {
      return j;
    }
    var head, z, q := c.heads[j], p[1], p[1..];
    ReachesSelf(w, {}, C(head));
    assert Sound(w, C(head));
    assert z in Succ(w, {}, C(head)) by { assert p[1] in Succ(w, {}, p[0]); }
    assert Connects(w, {}, q, z, y);
    ReachesStep(w, {}, C(head), C(head), z);
    AllSoundBelow(w, C(head), z);
    if z == T(c.u.objects[head].tree) {
      TreeReachSame(c.u, w, {}, z.id, y);
      return j;
    }
    assert j > b && z == C(c.heads[j - 1]) by {
      assert WriterOk(c, j);
      assert head !in w.grafts;
    }
    k := WalkStaysInChain(c, w, b, j - 1, y, q);
  }

  // ---- What an import gives back ----

  /** Object y is in one of the first n + 1 packs. */
  ghost predicate Imported(c: Chain, n: nat, y: Oid)
    requires n < |c.packs|
  {
    exists i :: 0 <= i <= n && y in c.packs[i]
  }

  /** Some state from lo on and before hi holds y. */
  ghost predicate HeldBetween(c: Chain, lo: nat, hi: nat, y: Oid)
    requires hi <= |c.heads|
  {
    exists k :: lo <= k < hi && StateHolds(c.u, c.heads[k], y)
  }

  /** The i-th writer's walk from its base met object y of its new state, so its pack leaves y out. */
  ghost predicate LeftOut(c: Chain, i: nat, y: Oid)
    requires 0 < i < |c.heads| == |c.writers|
  {
    StateHolds(c.u, c.heads[i], y) && ReachesId(c.writers[i], {}, C(c.heads[i - 1]), y)
  }

  /** Whatever the i-th writer left out, the chain already published: the walk found nothing that only
      the history below the checkpoint holds. */
  ghost predicate NothingStale(c: Chain, i: nat)
    requires 0 < i < |c.heads| == |c.writers|
  {
    forall y :: LeftOut(c, i, y) ==> HeldBetween(c, 0, i, y)
  }

  ghost predicate NeverStale(c: Chain)
    requires Published(c)
  {
    forall i :: 0 < i < |c.heads| ==> NothingStale(c, i)
  }

  /** A walk that stops at the checkpoint or at a later head meets nothing stale. */
  lemma BoundarySuffices(c: Chain)
    requires Published(c) && BoundaryKnown(c)
    ensures NeverStale(c)
  {
    forall i, y | 0 < i < |c.heads| && LeftOut(c, i, y) ensures HeldBetween(c, 0, i, y) {
      var w := c.writers[i];
      assert WriterOk(c, i) && StopsWithin(c, i);
      var b :| 0 <= b < i && c.heads[b] in w.grafts;
      var role :| Reaches(w, {}, C(c.heads[i - 1]), Node(role, y));
      var p :| Connects(w, {}, p, C(c.heads[i - 1]), Node(role, y));
      var k := WalkStaysInChain(c, w, b, i - 1, Node(role, y), p);
      assert StateHolds(c.u, c.heads[k], y);
    }
  }

  /** The writer of a head reaches its whole state. */
  lemma WriterReachesState(c: Chain, j: nat, y: Oid)
    requires Published(c) && j < |c.heads| && StateHolds(c.u, c.heads[j], y)
    ensures ReachesId(c.writers[j], {}, C(c.heads[j]), y)
    ensures j == 0 ==> y in c.packs[0]
  {
    HeadIsCommit(c, j);
    assert WriterOk(c, j);
    var w, head := c.writers[j], c.heads[j];
    var tree := c.u.objects[head].tree;
    var role :| InState(c.u, head, Node(role, y));
    var x := Node(role, y);
    TreeReachSame(c.u, w, {}, tree, x);
    ReachesSelf(w, {}, C(head));
    ReachesStep(w, {}, C(head), C(head), T(tree));
    if x != C(head) { ReachesThrough(w, {}, C(head), T(tree), x); }
    assert Reaches(w, {}, C(head), Node(role, y));
  }

  /** Every object of every published state is in a pack published no later than the state. */
  lemma {:induction false} StateIsImported(c: Chain, j: nat, y: Oid)
    requires Published(c) && NeverStale(c) && j < |c.heads| && StateHolds(c.u, c.heads[j], y)
    ensures Imported(c, j, y)
    decreases j
  {
    assert WriterOk(c, j);
    WriterReachesState(c, j, y);
    if j == 0 {
      assert y in c.packs[0];
    } else if ReachesId(c.writers[j], {}, C(c.heads[j - 1]), y) {
      assert NothingStale(c, j) && LeftOut(c, j, y);
      var k :| 0 <= k < j && StateHolds(c.u, c.heads[k], y);
      StateIsImported(c, k, y);
    } else {
      assert y in c.packs[j];
    }
  }

  /** A pack holds nothing but objects of the state it was exported for. */
  lemma PackIsWithinState(c: Chain, j: nat, y: Oid)
    requires Published(c) && j < |c.heads| && y in c.packs[j]
    ensures StateHolds(c.u, c.heads[j], y)
  {
    HeadIsCommit(c, j);
    assert WriterOk(c, j);
    var w, head := c.writers[j], c.heads[j];
    var tree := c.u.objects[head].tree;
    if y == head {
      assert InState(c.u, head, Node(AsCommit, y));
    } else if j == 0 {
      var role :| Reaches(w, {}, T(tree), Node(role, y));
      TreeReachSame(c.u, w, {}, tree, Node(role, y));
      assert InState(c.u, head, Node(role, y));
    } else {
      var role :| Reaches(w, {}, C(head), Node(role, y));
      var p :| Connects(w, {}, p, C(head), Node(role, y));
      assert p[1] in Succ(w, {}, p[0]) && Connects(w, {}, p[1..], p[1], Node(role, y));
      assert p[1] == T(tree) || p[1] == C(c.heads[j - 1]);
      TreeReachSame(c.u, w, {}, tree, Node(role, y));
      assert InState(c.u, head, Node(role, y));
    }
  }

  /** The reader: the first n + 1 packs imported into an empty repository, the checkpoint head
      marked shallow. */
  ghost function Reader(c: Chain, n: nat): Repo
    requires Published(c) && n < |c.heads|
  {
    Repo(map x | x in c.u.objects && Imported(c, n, x) :: c.u.objects[x], {c.heads[0]})
  }

  lemma StateIsSound(c: Chain, k: nat, y: Node)
    requires Published(c) && k < |c.heads| && IsCommit(c.u, c.heads[k]) && InState(c.u, c.heads[k], y)
    ensures Sound(c.u, y) && (y.role.AsCommit? ==> y == C(c.heads[k])) && StateHolds(c.u, c.heads[k], y.id)
  {
    HeadIsCommit(c, k);
    var w, tree := c.writers[k], c.u.objects[c.heads[k]].tree;
    TreeReachSame(c.u, w, {}, tree, y);
    if y != C(c.heads[k]) { assert Sound(w, y); }
    assert y == Node(y.role, y.id);
  }

  /** The reader's walk from a head of the chain only meets published states. */
  lemma {:induction false} ReaderStaysInChain(c: Chain, n: nat, y: Node, p: seq<Node>) returns (k: nat)
    requires Published(c) && n < |c.heads| && Connects(Reader(c, n), {c.heads[0]}, p, C(c.heads[n]), y)
    ensures k <= n && IsCommit(c.u, c.heads[k]) && InState(c.u, c.heads[k], y)
    decreases |p|
  {
    HeadIsCommit(c, n);
    if |p| == 1 {
      return n;
    }
    var r, gap := Reader(c, n), {c.heads[0]};
    var q := p[..|p| - 1];
    var x := q[|q| - 1];
    assert Connects(r, gap, q, C(c.heads[n]), x) && y in Succ(r, gap, x);
    k := ReaderStaysInChain(c, n, x, q);
    var tree := c.u.objects[c.heads[k]].tree;
    ReachesSelf(c.u, {}, T(tree));
    StateIsSound(c, k, x);
    if x != C(c.heads[k]) {
      assert y in Succ(c.u, {}, x);
      ReachesStep(c.u, {}, T(tree), x, y);
    } else if y != T(tree) {
      assert WriterOk(c, k);
      assert k > 0 && y == C(c.heads[k - 1]);
      HeadIsCommit(c, k - 1);
      k := k - 1;
    }
  }

  /** Importing the checkpoint pack and then the increments in order reconstructs every head of the
      chain: everything reachable outside the checkpoint head's parents is present, so history
      validation accepts it, and every object of the published state resolves. */
  lemma ImportReconstructs(c: Chain, n: nat)
    requires Published(c) && NeverStale(c) && n < |c.heads|
    ensures Complete(Reader(c, n), {c.heads[0]}, c.heads[n])
    ensures forall y :: StateHolds(c.u, c.heads[n], y) ==> y in Reader(c, n).objects
  {
    var r, gap := Reader(c, n), {c.heads[0]};
    forall y | StateHolds(c.u, c.heads[n], y) ensures y in r.objects {
      StateIsImported(c, n, y);
      var role :| InState(c.u, c.heads[n], Node(role, y));
      StateIsSound(c, n, Node(role, y));
    }
    forall y | Reaches(r, gap, C(c.heads[n]), y) ensures Sound(r, y) {
      var p :| Connects(r, gap, p, C(c.heads[n]), y);
      var k := ReaderStaysInChain(c, n, y, p);
      StateIsSound(c, k, y);
      StateIsImported(c, k, y.id);
    }
  }

  /** A complete import holds the whole state of its head. */
  lemma CompleteHoldsState(c: Chain, n: nat, y: Oid)
    requires Published(c) && n < |c.heads| && Complete(Reader(c, n), {c.heads[0]}, c.heads[n])
    requires StateHolds(c.u, c.heads[n], y)
    ensures Imported(c, n, y)
  {
    var r, gap, head := Reader(c, n), {c.heads[0]}, c.heads[n];
    var tree := c.u.objects[head].tree;
    HeadIsCommit(c, n);
    ReachesSelf(r, gap, C(head));
    assert Sound(r, C(head));
    ReachesStep(r, gap, C(head), C(head), T(tree));
    forall z | Reaches(r, gap, T(tree), z) ensures Sound(r, z) { ReachesThrough(r, gap, C(head), T(tree), z); }
    var role :| InState(c.u, head, Node(role, y));
    TreeReachSame(c.u, r, gap, tree, Node(role, y));
    assert Sound(r, Node(role, y));
  }

  /** Every head of the chain can be rebuilt from what was published up to it. */
  ghost predicate Rebuilds(c: Chain)
    requires Published(c)
  {
    forall n :: 0 <= n < |c.heads| ==> Complete(Reader(c, n), {c.heads[0]}, c.heads[n])
  }

  /** Exactly when every published head can be rebuilt from what was published up to it: no writer
      left out an object of its new state that the chain had not published. */
  lemma RebuildsExactlyWhenNeverStale(c: Chain)
    requires Published(c)
    ensures Rebuilds(c) <==> NeverStale(c)
  {
    if NeverStale(c) {
      forall n | 0 <= n < |c.heads| ensures Complete(Reader(c, n), {c.heads[0]}, c.heads[n]) {
        ImportReconstructs(c, n);
      }
    }
    if Rebuilds(c) {
      forall i, y | 0 < i < |c.heads| && LeftOut(c, i, y) ensures HeldBetween(c, 0, i, y) {
        CompleteHoldsState(c, i, y);
        assert WriterOk(c, i);
        var j :| 0 <= j <= i && y in c.packs[j];
        PackIsWithinState(c, j, y);
      }
    }
  }
}
