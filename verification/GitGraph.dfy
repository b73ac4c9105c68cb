/** The content-addressed object graph behind internal/git/pack.go: commits, trees and blobs, the
    shallow boundary, and reachability by the position an object is referenced from. */
module GitGraph {

  type Oid = nat

  datatype Mode = ModeBlob | ModeTree | ModeOther

  datatype TreeEntry = TreeEntry(name: string, mode: Mode, id: Oid)

  datatype Object = Blob(data: string) | Tree(entries: seq<TreeEntry>) | Commit(tree: Oid, parents: seq<Oid>)

  /** grafts are the commits recorded as shallow: they read with no parents. */
  datatype Repo = Repo(objects: map<Oid, Object>, grafts: set<Oid>)

  /** What a reference takes the object for.  Nothing makes the object agree with it. */
  datatype Role = AsCommit | AsTree | AsBlob

  datatype Node = Node(role: Role, id: Oid)

  predicate IsCommit(repo: Repo, id: Oid) { id in repo.objects && repo.objects[id].Commit? }

  predicate IsTree(repo: Repo, id: Oid) { id in repo.objects && repo.objects[id].Tree? }

  function ParentsOf(repo: Repo, id: Oid): seq<Oid>
    requires IsCommit(repo, id)
  {
    if id in repo.grafts then [] else repo.objects[id].parents
  }

  function Elements(s: seq<Oid>): set<Oid> { set i | 0 <= i < |s| :: s[i] }

  function NodesAs(role: Role, s: seq<Oid>): set<Node> { set i | 0 <= i < |s| :: Node(role, s[i]) }

  function EntryNode(e: TreeEntry): Node { Node(if e.mode.ModeTree? then AsTree else AsBlob, e.id) }

  /** What the first n entries reference; an entry of another mode references nothing. */
  function EntryNodes(entries: seq<TreeEntry>, n: nat): set<Node>
    requires n <= |entries|
  {
    set i | 0 <= i < n && !entries[i].mode.ModeOther? :: EntryNode(entries[i])
  }

  /** What a node references.  The commit gap may name parents that are not there. */
  function Succ(repo: Repo, gap: set<Oid>, x: Node): set<Node>
  {
    if x.role.AsCommit? && IsCommit(repo, x.id) then
      {Node(AsTree, repo.objects[x.id].tree)}
      + set p | p in Elements(ParentsOf(repo, x.id)) && (x.id in gap ==> IsCommit(repo, p)) :: Node(AsCommit, p)
    else if x.role.AsTree? && IsTree(repo, x.id) then
      EntryNodes(repo.objects[x.id].entries, |repo.objects[x.id].entries|)
    else {}
  }

  /** Which reference leads from where: a commit to its tree and, unless it is grafted, to each of its
      parents, at a declared gap only to those that are there; a tree to each entry in the entry's mode. */
  lemma ReferencesAre(repo: Repo, gap: set<Oid>, x: Node, y: Node)
    ensures y in Succ(repo, gap, x) <==>
            || (x.role.AsCommit? && IsCommit(repo, x.id) && y.role.AsTree? && y.id == repo.objects[x.id].tree)
            || (x.role.AsCommit? && IsCommit(repo, x.id) && y.role.AsCommit? && x.id !in repo.grafts &&
                y.id in repo.objects[x.id].parents && (x.id in gap ==> IsCommit(repo, y.id)))
            || (x.role.AsTree? && IsTree(repo, x.id) &&
                exists e :: e in repo.objects[x.id].entries && e.id == y.id &&
                            ((e.mode.ModeTree? && y.role.AsTree?) || (e.mode.ModeBlob? && y.role.AsBlob?)))
  {
    if x.role.AsCommit? && IsCommit(repo, x.id) {
      var parents := repo.objects[x.id].parents;
      if y.id in parents { var i :| 0 <= i < |parents| && parents[i] == y.id; }
      assert y == Node(y.role, y.id);
    } else if x.role.AsTree? && IsTree(repo, x.id) {
      var entries := repo.objects[x.id].entries;
      forall e | e in entries && !e.mode.ModeOther? ensures EntryNode(e) in Succ(repo, gap, x) {
        var i :| 0 <= i < |entries| && entries[i] == e;
      }
      assert y == Node(y.role, y.id);
    }
  }

  /** The object is there and is what its position says; a blob is only asked to be present. */
  predicate Sound(repo: Repo, x: Node)
  {
    match x.role
    case AsCommit => IsCommit(repo, x.id)
    case AsTree => IsTree(repo, x.id) && forall e :: e in repo.objects[x.id].entries ==> !e.mode.ModeOther?
    case AsBlob => x.id in repo.objects
  }

  // ---- Reachability ----

  ghost predicate Path(repo: Repo, gap: set<Oid>, p: seq<Node>)
  {
    p != [] && forall i :: 0 < i < |p| ==> p[i] in Succ(repo, gap, p[i - 1])
  }

  ghost predicate Connects(repo: Repo, gap: set<Oid>, p: seq<Node>, x: Node, y: Node)
  {
    Path(repo, gap, p) && p[0] == x && p[|p| - 1] == y
  }

  ghost predicate Reaches(repo: Repo, gap: set<Oid>, x: Node, y: Node)
  {
    exists p :: Connects(repo, gap, p, x, y)
  }

  /** Some reference below x names the object, whatever it takes it for. */
  ghost predicate ReachesId(repo: Repo, gap: set<Oid>, x: Node, id: Oid)
  {
    exists role :: Reaches(repo, gap, x, Node(role, id))
  }

  ghost predicate ClosedUnder(repo: Repo, gap: set<Oid>, s: set<Node>)
  {
    forall x :: x in s ==> Succ(repo, gap, x) <= s
  }

  lemma ReachesSelf(repo: Repo, gap: set<Oid>, x: Node)
    ensures Reaches(repo, gap, x, x)
  {
    assert Connects(repo, gap, [x], x, x);
  }

  lemma ReachesStep(repo: Repo, gap: set<Oid>, x: Node, y: Node, z: Node)
    requires Reaches(repo, gap, x, y) && z in Succ(repo, gap, y)
    ensures Reaches(repo, gap, x, z)
  {
    var p :| Connects(repo, gap, p, x, y);
    assert Connects(repo, gap, p + [z], x, z);
  }

  lemma {:induction false} ReachesTransitive(repo: Repo, gap: set<Oid>, x: Node, y: Node, z: Node, q: seq<Node>)
    requires Reaches(repo, gap, x, y) && Connects(repo, gap, q, y, z)
    ensures Reaches(repo, gap, x, z)
    decreases |q|
  {
    if |q| > 1 {
      var r := q[..|q| - 1];
      assert Connects(repo, gap, r, y, r[|r| - 1]);
      ReachesTransitive(repo, gap, x, y, r[|r| - 1], r);
      ReachesStep(repo, gap, x, r[|r| - 1], z);
    }
  }

  lemma ReachesThrough(repo: Repo, gap: set<Oid>, x: Node, y: Node, z: Node)
    requires Reaches(repo, gap, x, y) && Reaches(repo, gap, y, z)
    ensures Reaches(repo, gap, x, z)
  {
    var q :| Connects(repo, gap, q, y, z);
    ReachesTransitive(repo, gap, x, y, z, q);
  }

  lemma {:induction false} ClosedPath(repo: Repo, gap: set<Oid>, s: set<Node>, p: seq<Node>)
    requires ClosedUnder(repo, gap, s) && Path(repo, gap, p) && p[0] in s
    ensures p[|p| - 1] in s
    decreases |p|
  {
    if |p| > 1 {
      ClosedPath(repo, gap, s, p[..|p| - 1]);
    }
  }

  /** A closed set holds everything reachable from its members. */
  lemma ClosedHoldsAll(repo: Repo, gap: set<Oid>, s: set<Node>, x: Node, y: Node)
    requires ClosedUnder(repo, gap, s) && x in s && Reaches(repo, gap, x, y)
    ensures y in s
  {
    var p :| Connects(repo, gap, p, x, y);
    ClosedPath(repo, gap, s, p);
  }

  // ---- Completeness ----

  /** The head is a commit and everything it reaches outside the declared gap is present and is what
      its position says. */
  ghost predicate Complete(repo: Repo, gap: set<Oid>, head: Oid)
  {
    forall y :: Reaches(repo, gap, Node(AsCommit, head), y) ==> Sound(repo, y)
  }

  /** No object is referenced in two different positions. */
  ghost predicate OneRole(repo: Repo, gap: set<Oid>, head: Oid)
  {
    forall x, y ::
      Reaches(repo, gap, Node(AsCommit, head), x) && Reaches(repo, gap, Node(AsCommit, head), y) && x.id == y.id
      ==> x == y
  }

  /** Something reachable from x is missing or malformed. */
  ghost predicate Broken(repo: Repo, gap: set<Oid>, x: Node)
  {
    exists y :: Reaches(repo, gap, x, y) && !Sound(repo, y)
  }

  lemma BrokenAt(repo: Repo, gap: set<Oid>, x: Node, y: Node)
    requires Reaches(repo, gap, x, y) && !Sound(repo, y)
    ensures Broken(repo, gap, x)
  {
  }

  lemma BrokenBelow(repo: Repo, gap: set<Oid>, x: Node, y: Node)
    requires Reaches(repo, gap, x, y) && Broken(repo, gap, y)
    ensures Broken(repo, gap, x)
  {
    var z :| Reaches(repo, gap, y, z) && !Sound(repo, z);
    ReachesThrough(repo, gap, x, y, z);
  }

  // ---- Queues ----

  lemma QueueGrows(queue: seq<Oid>, id: Oid)
    ensures Elements(queue + [id]) == Elements(queue) + {id}
  {
    var all := queue + [id];
    assert all[|queue|] == id;
    forall i | 0 <= i < |queue| ensures all[i] == queue[i] { }
  }

  lemma QueueShrinks(queue: seq<Oid>)
    requires queue != []
    ensures Elements(queue) == {queue[0]} + Elements(queue[1..])
  {
    forall i | 0 < i < |queue| ensures queue[i] == queue[1..][i - 1] { }
  }

  lemma QueueJoins(a: seq<Oid>, b: seq<Oid>)
    ensures Elements(a + b) == Elements(a) + Elements(b)
  {
    forall i | 0 <= i < |a| ensures (a + b)[i] == a[i] { }
    forall i | 0 <= i < |b| ensures (a + b)[|a| + i] == b[i] { }
  }

  lemma InQueue(queue: seq<Oid>, x: Oid)
    ensures x in Elements(queue) <==> x in queue
  {
  }
}
