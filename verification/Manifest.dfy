/** The accepted-state manifest of internal/storage/manifest.go: its descriptors, the cross-field
    rules every stored manifest obeys, and the five ways a writer derives the next manifest. */
module Manifest {
  import opened Wrappers

  type Oid = nat
  type Uuid = nat

  datatype PackKind = CheckpointPack | IncrementPack

  datatype Key = Key(kind: PackKind, generation: nat, id: Uuid)

  datatype Checkpoint = Checkpoint(id: Uuid, publication: Uuid, through: nat, head: Oid, key: Key, size: nat)

  datatype Increment = Increment(generation: nat, publication: Uuid, parent: Oid, head: Oid, key: Key, size: nat)

  datatype Retained = Retained(retiredAt: nat, head: Oid, checkpoint: Checkpoint, increments: seq<Increment>)

  datatype Manifest = Manifest(generation: nat, head: Oid, checkpoint: Checkpoint, increments: seq<Increment>,
                               retained: seq<Retained>)

  // ---- Cross-field rules ----

  /** The head after the first n increments of a chain. */
  function HeadAfter(cp: Checkpoint, incs: seq<Increment>, n: nat): Oid
    requires n <= |incs|
  {
    if n == 0 then cp.head else incs[n - 1].head
  }

  function ChainHead(cp: Checkpoint, incs: seq<Increment>): Oid { HeadAfter(cp, incs, |incs|) }

  predicate LinkOk(cp: Checkpoint, incs: seq<Increment>, i: nat)
    requires i < |incs|
  {
    && incs[i].size > 0
    && incs[i].generation == cp.through + i + 1
    && incs[i].parent == HeadAfter(cp, incs, i)
    && incs[i].key == Key(IncrementPack, incs[i].generation, incs[i].publication)
  }

  /** One reconstructable chain: consecutive generations, head-to-head parents, bound keys. */
  predicate ChainOk(cp: Checkpoint, incs: seq<Increment>)
  {
    && cp.size > 0
    && cp.key == Key(CheckpointPack, cp.through, cp.id)
    && forall i :: 0 <= i < |incs| ==> LinkOk(cp, incs, i)
  }

  function KeysOf(incs: seq<Increment>): seq<Key>
  {
    seq(|incs|, i requires 0 <= i < |incs| => incs[i].key)
  }

  function ChainKeys(cp: Checkpoint, incs: seq<Increment>): multiset<Key>
  {
    multiset{cp.key} + multiset(KeysOf(incs))
  }

  function RetainedKeys(rs: seq<Retained>): multiset<Key>
  {
    if rs == [] then multiset{} else ChainKeys(rs[0].checkpoint, rs[0].increments) + RetainedKeys(rs[1..])
  }

  /** Every pack key the active and retained descriptors name, with multiplicity. */
  function AllKeys(m: Manifest): multiset<Key>
  {
    ChainKeys(m.checkpoint, m.increments) + RetainedKeys(m.retained)
  }

  function RetainedCheckpointIds(rs: seq<Retained>): multiset<Uuid>
  {
    if rs == [] then multiset{} else multiset{rs[0].checkpoint.id} + RetainedCheckpointIds(rs[1..])
  }

  function CheckpointIds(m: Manifest): multiset<Uuid>
  {
    multiset{m.checkpoint.id} + RetainedCheckpointIds(m.retained)
  }

  function ChainPairs(cp: Checkpoint, incs: seq<Increment>): set<(Uuid, Oid)>
  {
    {(cp.publication, cp.head)} + set i | 0 <= i < |incs| :: (incs[i].publication, incs[i].head)
  }

  function RetainedPairs(rs: seq<Retained>): set<(Uuid, Oid)>
  {
    if rs == [] then {} else ChainPairs(rs[0].checkpoint, rs[0].increments) + RetainedPairs(rs[1..])
  }

  /** Which publication names which head, over every descriptor. */
  function Pairs(m: Manifest): set<(Uuid, Oid)>
  {
    ChainPairs(m.checkpoint, m.increments) + RetainedPairs(m.retained)
  }

  ghost predicate Once<T(!new)>(bag: multiset<T>) { forall x :: bag[x] <= 1 }

  ghost predicate Functional(pairs: set<(Uuid, Oid)>)
  {
    forall p, q :: p in pairs && q in pairs && p.0 == q.0 ==> p.1 == q.1
  }

  function FinalGeneration(r: Retained): nat { r.checkpoint.through + |r.increments| }

  predicate RetainedOk(r: Retained, limit: nat)
  {
    && r.retiredAt < limit
    && FinalGeneration(r) < r.retiredAt
    && ChainOk(r.checkpoint, r.increments)
    && r.head == ChainHead(r.checkpoint, r.increments)
  }

  /** Retained generations strictly decrease from the manifest generation on. */
  predicate RetainedAllOk(rs: seq<Retained>, limit: nat)
  {
    rs != [] ==> RetainedOk(rs[0], limit) && RetainedAllOk(rs[1..], rs[0].retiredAt)
  }

  /** The rules applied before a manifest is encoded or accepted from the store. */
  ghost predicate Valid(m: Manifest)
  {
    && m.generation >= 1
    && ChainOk(m.checkpoint, m.increments)
    && m.head == ChainHead(m.checkpoint, m.increments)
    && m.checkpoint.through <= m.generation
    && RetainedAllOk(m.retained, m.generation + 1)
    && Once(AllKeys(m)) && Once(CheckpointIds(m)) && Functional(Pairs(m))
  }

  /** Each retained chain ends exactly where the chain that replaced it begins. */
  predicate Splices(cp: Checkpoint, rs: seq<Retained>)
    decreases |rs|
  {
    rs != [] ==>
      && rs[0].head == cp.head
      && FinalGeneration(rs[0]) == cp.through
      && Splices(rs[0].checkpoint, rs[1..])
  }

  /** What every accepted manifest satisfies beyond the stored rules. */
  ghost predicate Good(m: Manifest)
  {
    && Valid(m)
    && m.checkpoint.through + |m.increments| <= m.generation
    && Splices(m.checkpoint, m.retained)
  }

  // ---- Derived views ----

  ghost function Roots(m: Manifest): set<Key> { set k | k in AllKeys(m) }

  /** Every identifier a descriptor carries. */
  ghost function Ids(m: Manifest): set<Uuid>
  {
    (set k | k in AllKeys(m) :: k.id) + (set p | p in Pairs(m) :: p.0)
  }

  /** The lost-response lookup of a publication. */
  ghost predicate PublicationIn(m: Manifest, id: Uuid) { exists p :: p in Pairs(m) && p.0 == id }

  ghost predicate CheckpointIn(m: Manifest, id: Uuid) { id in CheckpointIds(m) }

  // ---- Writers ----

  /** The stable prefix one checkpoint effort compacts. */
  datatype Plan = Plan(manifest: Manifest, count: nat)
  {
    predicate Ok() { 1 <= count <= |manifest.increments| }

    function Last(): Increment
      requires Ok()
    {
      manifest.increments[count - 1]
    }

    predicate PrefixPresent(m: Manifest)
      requires Ok()
    {
      count <= |m.increments| && m.increments[..count] == manifest.increments[..count]
    }
  }

  /** What a writer adds to the manifest it observed; ids and heads are the ones it drew. */
  datatype Edit =
    | First(publication: Uuid, cpId: Uuid, head: Oid, size: nat)
    | Append(publication: Uuid, head: Oid, size: nat)
    | Quota(publication: Uuid, cpId: Uuid, head: Oid, size: nat)
    | Root(publication: Uuid, cpId: Uuid, head: Oid, size: nat)
    | Prefix(plan: Plan, cpId: Uuid, retain: nat, size: nat)

  function Generation(obs: Option<Manifest>): nat { if obs.None? then 0 else obs.value.generation }

  function NextIncrement(m: Manifest): nat { m.checkpoint.through + |m.increments| + 1 }

  predicate EditOk(obs: Option<Manifest>, e: Edit)
  {
    && e.size > 0
    && match e
       case First(pub, cp, _, _) => obs.None? && pub != cp
       case Append(_, _, _) => obs.Some?
       case Quota(pub, cp, _, _) => obs.Some? && pub != cp
       case Root(pub, cp, _, _) => pub != cp
       case Prefix(plan, _, _, _) => obs.Some? && plan.Ok() && plan.PrefixPresent(obs.value)
  }

  /** The key of the one pack the writer uploads before its manifest write. */
  function PackKey(obs: Option<Manifest>, e: Edit): Key
    requires EditOk(obs, e)
  {
    match e
    case First(_, cp, _, _) => Key(CheckpointPack, 1, cp)
    case Append(pub, _, _) => Key(IncrementPack, NextIncrement(obs.value), pub)
    case Quota(_, cp, _, _) => Key(CheckpointPack, NextIncrement(obs.value), cp)
    case Root(_, cp, _, _) => Key(CheckpointPack, Generation(obs) + 1, cp)
    case Prefix(plan, cp, _, _) => Key(CheckpointPack, plan.Last().generation, cp)
  }

  /** A manifest that is one checkpoint and nothing else. */
  function Single(generation: nat, through: nat, pub: Uuid, cpId: Uuid, head: Oid, size: nat): Manifest
  {
    Manifest(generation, head, Checkpoint(cpId, pub, through, head, Key(CheckpointPack, through, cpId), size), [], [])
  }

  function Append1(m: Manifest, pub: Uuid, head: Oid, size: nat): Manifest
  {
    var gen := NextIncrement(m);
    m.(generation := m.generation + 1, head := head,
       increments := m.increments + [Increment(gen, pub, m.head, head, Key(IncrementPack, gen, pub), size)])
  }

  function Trimmed(rs: seq<Retained>, retain: nat): seq<Retained> { if retain < |rs| then rs[..retain] else rs }

  /** The generation a compaction retires. */
  function Retire(latest: Manifest, plan: Plan): Retained
    requires plan.Ok() && plan.count <= |latest.increments|
  {
    Retained(latest.generation + 1, plan.Last().head, latest.checkpoint, latest.increments[..plan.count])
  }

  /** Replaces the selected prefix of the latest manifest by one checkpoint. */
  function Compact(latest: Manifest, plan: Plan, cpId: Uuid, retain: nat, size: nat): Manifest
    requires plan.Ok() && plan.count <= |latest.increments|
  {
    var last := plan.Last();
    var cp := Checkpoint(cpId, last.publication, last.generation, last.head,
      Key(CheckpointPack, last.generation, cpId), size);
    var rest := latest.increments[plan.count..];
    Manifest(latest.generation + 1, if rest == [] then last.head else rest[|rest| - 1].head, cp, rest,
             Trimmed([Retire(latest, plan)] + latest.retained, retain))
  }

  function Build(obs: Option<Manifest>, e: Edit): Manifest
    requires EditOk(obs, e)
  {
    match e
    case First(pub, cp, head, size) => Single(1, 1, pub, cp, head, size)
    case Append(pub, head, size) => Append1(obs.value, pub, head, size)
    case Quota(pub, cp, head, size) => Single(obs.value.generation + 1, NextIncrement(obs.value), pub, cp, head, size)
    case Root(pub, cp, head, size) => Single(Generation(obs) + 1, Generation(obs) + 1, pub, cp, head, size)
    case Prefix(plan, cp, retain, size) => Compact(obs.value, plan, cp, retain, size)
  }

  /** The identifiers the writer drew for this edit. */
  function Fresh(e: Edit): set<Uuid>
  {
    match e
    case Append(pub, _, _) => {pub}
    case Prefix(_, cp, _, _) => {cp}
    case _ => {e.publication, e.cpId}
  }

  // ---- Trimming the retained list ----

  lemma {:induction false} TrimmedStillOk(rs: seq<Retained>, n: nat, limit: nat)
    requires n <= |rs| && RetainedAllOk(rs, limit)
    ensures RetainedAllOk(rs[..n], limit)
    decreases n
  {
    if n > 0 {
      assert rs[..n][1..] == rs[1..][..n - 1];
      TrimmedStillOk(rs[1..], n - 1, rs[0].retiredAt);
    }
  }

  lemma {:induction false} TrimmedStillSplices(cp: Checkpoint, rs: seq<Retained>, n: nat)
    requires n <= |rs| && Splices(cp, rs)
    ensures Splices(cp, rs[..n])
    decreases n
  {
    if n > 0 {
      assert rs[..n][1..] == rs[1..][..n - 1];
      TrimmedStillSplices(rs[0].checkpoint, rs[1..], n - 1);
    }
  }

  lemma {:induction false} TrimmedNamesLess(rs: seq<Retained>, n: nat)
    requires n <= |rs|
    ensures RetainedKeys(rs[..n]) <= RetainedKeys(rs)
    ensures RetainedCheckpointIds(rs[..n]) <= RetainedCheckpointIds(rs)
    ensures RetainedPairs(rs[..n]) <= RetainedPairs(rs)
    decreases n
  {
    if n > 0 {
      assert rs[..n][1..] == rs[1..][..n - 1];
      TrimmedNamesLess(rs[1..], n - 1);
    }
  }

  lemma TrimmedNames(rs: seq<Retained>, retain: nat)
    ensures RetainedKeys(Trimmed(rs, retain)) <= RetainedKeys(rs)
    ensures RetainedCheckpointIds(Trimmed(rs, retain)) <= RetainedCheckpointIds(rs)
    ensures RetainedPairs(Trimmed(rs, retain)) <= RetainedPairs(rs)
  {
    if retain < |rs| { TrimmedNamesLess(rs, retain); }
  }

  // ---- Compaction of a stable prefix ----

  lemma SplitKeys(incs: seq<Increment>, n: nat)
    requires n <= |incs|
    ensures multiset(KeysOf(incs)) == multiset(KeysOf(incs[..n])) + multiset(KeysOf(incs[n..]))
  {
    assert KeysOf(incs) == KeysOf(incs[..n]) + KeysOf(incs[n..]);
  }

  lemma Cons(r: Retained, rs: seq<Retained>)
    ensures RetainedKeys([r] + rs) == ChainKeys(r.checkpoint, r.increments) + RetainedKeys(rs)
    ensures RetainedCheckpointIds([r] + rs) == multiset{r.checkpoint.id} + RetainedCheckpointIds(rs)
    ensures RetainedPairs([r] + rs) == ChainPairs(r.checkpoint, r.increments) + RetainedPairs(rs)
  {
    assert ([r] + rs)[1..] == rs;
  }

  lemma MoveBag<T>(drawn: multiset<T>, cp: multiset<T>, prefix: multiset<T>, rest: multiset<T>, before: multiset<T>,
                   kept: multiset<T>)
    requires kept <= (cp + prefix) + before
    ensures (drawn + rest) + kept <= drawn + ((cp + (prefix + rest)) + before)
  {
  }

  /** Compaction names nothing new but its own checkpoint pack, and nothing twice. */
  lemma CompactKeys(m: Manifest, plan: Plan, cpId: Uuid, retain: nat, size: nat)
    requires plan.Ok() && plan.PrefixPresent(m)
    ensures AllKeys(Compact(m, plan, cpId, retain, size)) <=
            multiset{Key(CheckpointPack, plan.Last().generation, cpId)} + AllKeys(m)
  {
    var n, retired := plan.count, Retire(m, plan);
    var prefix, rest := m.increments[..n], m.increments[n..];
    SplitKeys(m.increments, n);
    TrimmedNames([retired] + m.retained, retain);
    Cons(retired, m.retained);
    MoveBag(multiset{Key(CheckpointPack, plan.Last().generation, cpId)}, multiset{m.checkpoint.key},
            multiset(KeysOf(prefix)), multiset(KeysOf(rest)), RetainedKeys(m.retained),
            RetainedKeys(Trimmed([retired] + m.retained, retain)));
  }

  lemma CompactCheckpointIds(m: Manifest, plan: Plan, cpId: Uuid, retain: nat, size: nat)
    requires plan.Ok() && plan.PrefixPresent(m)
    ensures CheckpointIds(Compact(m, plan, cpId, retain, size)) <= multiset{cpId} + CheckpointIds(m)
  {
    var retired := Retire(m, plan);
    TrimmedNames([retired] + m.retained, retain);
    Cons(retired, m.retained);
    assert CheckpointIds(Compact(m, plan, cpId, retain, size)) ==
           multiset{cpId} + RetainedCheckpointIds(Trimmed([retired] + m.retained, retain));
  }

  lemma CompactActivePairs(m: Manifest, plan: Plan, cpId: Uuid, retain: nat, size: nat)
    requires plan.Ok() && plan.PrefixPresent(m)
    ensures var next := Compact(m, plan, cpId, retain, size);
            ChainPairs(next.checkpoint, next.increments) <= ChainPairs(m.checkpoint, m.increments)
  {
    var n, last := plan.count, plan.Last();
    var next := Compact(m, plan, cpId, retain, size);
    assert m.increments[n - 1] == m.increments[..n][n - 1] == last;
    forall p | p in ChainPairs(next.checkpoint, next.increments)
      ensures p in ChainPairs(m.checkpoint, m.increments)
    {
      if p != (last.publication, last.head) {
        var i :| 0 <= i < |next.increments| && p == (next.increments[i].publication, next.increments[i].head);
        assert next.increments[i] == m.increments[n + i];
      }
    }
  }

  lemma CompactPairs(m: Manifest, plan: Plan, cpId: Uuid, retain: nat, size: nat)
    requires plan.Ok() && plan.PrefixPresent(m)
    ensures Pairs(Compact(m, plan, cpId, retain, size)) <= Pairs(m)
  {
    var retired := Retire(m, plan);
    CompactActivePairs(m, plan, cpId, retain, size);
    TrimmedNames([retired] + m.retained, retain);
    Cons(retired, m.retained);
    PrefixPairs(m.checkpoint, m.increments, plan.count);
    var next := Compact(m, plan, cpId, retain, size);
    assert RetainedPairs(next.retained) <= ChainPairs(m.checkpoint, m.increments) + RetainedPairs(m.retained);
  }

  lemma PrefixPairs(cp: Checkpoint, incs: seq<Increment>, n: nat)
    requires n <= |incs|
    ensures ChainPairs(cp, incs[..n]) <= ChainPairs(cp, incs)
  {
    forall i | 0 <= i < n ensures incs[..n][i] == incs[i] { }
  }

  /** What remains after the prefix is a chain on the new checkpoint, with the same end. */
  lemma CompactActive(m: Manifest, plan: Plan, cpId: Uuid, retain: nat, size: nat)
    requires plan.Ok() && plan.PrefixPresent(m) && Good(m) && size > 0
    ensures var next := Compact(m, plan, cpId, retain, size);
            && ChainOk(next.checkpoint, next.increments)
            && next.head == ChainHead(next.checkpoint, next.increments) == m.head
            && next.checkpoint.through + |next.increments| <= next.generation
  {
    var n := plan.count;
    var next := Compact(m, plan, cpId, retain, size);
    PlanCutoff(m, plan);
    forall i | 0 <= i < |next.increments| ensures LinkOk(next.checkpoint, next.increments, i) {
      assert LinkOk(m.checkpoint, m.increments, n + i);
    }
  }

  /** The retired generation is a chain that ends where the new checkpoint begins. */
  lemma CompactRetained(m: Manifest, plan: Plan, cpId: Uuid, retain: nat, size: nat)
    requires plan.Ok() && plan.PrefixPresent(m) && Good(m)
    ensures var next := Compact(m, plan, cpId, retain, size);
            RetainedAllOk(next.retained, next.generation + 1) && Splices(next.checkpoint, next.retained)
  {
    var next, retired := Compact(m, plan, cpId, retain, size), Retire(m, plan);
    PlanCutoff(m, plan);
    forall i | 0 <= i < plan.count ensures LinkOk(m.checkpoint, m.increments[..plan.count], i) {
      assert LinkOk(m.checkpoint, m.increments, i);
    }
    var all := [retired] + m.retained;
    assert all[1..] == m.retained;
    assert RetainedOk(retired, next.generation + 1);
    if retain < |all| {
      TrimmedStillOk(all, retain, next.generation + 1);
      TrimmedStillSplices(next.checkpoint, all, retain);
    }
  }

  // ---- Every writer keeps the manifest good ----

  lemma KeyIdsInIds(m: Manifest, k: Key)
    requires k in AllKeys(m)
    ensures k.id in Ids(m)
  {
  }

  lemma {:induction false} RetainedIdsHaveKeys(rs: seq<Retained>, limit: nat, id: Uuid)
    requires RetainedAllOk(rs, limit) && id in RetainedCheckpointIds(rs)
    ensures exists k :: k in RetainedKeys(rs) && k.id == id
    decreases |rs|
  {
    if id == rs[0].checkpoint.id {
      assert rs[0].checkpoint.key in RetainedKeys(rs);
    } else {
      RetainedIdsHaveKeys(rs[1..], rs[0].retiredAt, id);
    }
  }

  lemma CheckpointIdsInIds(m: Manifest, id: Uuid)
    requires Valid(m) && id in CheckpointIds(m)
    ensures id in Ids(m)
  {
    if id == m.checkpoint.id {
      KeyIdsInIds(m, m.checkpoint.key);
    } else {
      RetainedIdsHaveKeys(m.retained, m.generation + 1, id);
    }
  }

  lemma PublicationsInIds(m: Manifest, id: Uuid)
    requires PublicationIn(m, id)
    ensures id in Ids(m)
  {
  }

  lemma AppendNames(m: Manifest, pub: Uuid, head: Oid, size: nat)
    ensures AllKeys(Append1(m, pub, head, size)) == AllKeys(m) + multiset{Key(IncrementPack, NextIncrement(m), pub)}
    ensures CheckpointIds(Append1(m, pub, head, size)) == CheckpointIds(m)
    ensures Pairs(Append1(m, pub, head, size)) == Pairs(m) + {(pub, head)}
  {
    var next := Append1(m, pub, head, size);
    var n := |m.increments|;
    assert KeysOf(next.increments) == KeysOf(m.increments) + [next.increments[n].key];
    assert forall i :: 0 <= i < n ==> next.increments[i] == m.increments[i];
    assert next.increments[n].publication == pub && next.increments[n].head == head;
    assert ChainPairs(next.checkpoint, next.increments) == ChainPairs(m.checkpoint, m.increments) + {(pub, head)};
  }

  lemma AppendGood(m: Manifest, pub: Uuid, head: Oid, size: nat)
    requires Good(m) && pub !in Ids(m) && size > 0
    ensures Good(Append1(m, pub, head, size))
  {
    var next := Append1(m, pub, head, size);
    AppendChain(m, pub, head, size);
    AppendNames(m, pub, head, size);
    AppendRetained(m);
    var key := Key(IncrementPack, NextIncrement(m), pub);
    if key in AllKeys(m) { KeyIdsInIds(m, key); }
    OnceMore(AllKeys(next), key, AllKeys(m));
    AppendFunctional(m, pub, head);
  }

  lemma AppendChain(m: Manifest, pub: Uuid, head: Oid, size: nat)
    requires ChainOk(m.checkpoint, m.increments) && m.head == ChainHead(m.checkpoint, m.increments) && size > 0
    ensures var next := Append1(m, pub, head, size);
            ChainOk(next.checkpoint, next.increments) && next.head == ChainHead(next.checkpoint, next.increments)
  {
    var next := Append1(m, pub, head, size);
    forall i | 0 <= i < |next.increments| ensures LinkOk(next.checkpoint, next.increments, i) {
      if i < |m.increments| { assert LinkOk(m.checkpoint, m.increments, i); }
    }
  }

  lemma AppendFunctional(m: Manifest, pub: Uuid, head: Oid)
    requires Functional(Pairs(m)) && pub !in Ids(m)
    ensures Functional(Pairs(m) + {(pub, head)})
  {
    forall p | p in Pairs(m) ensures p.0 != pub {
      assert p.0 in Ids(m);
    }
  }

  lemma AppendRetained(m: Manifest)
    requires RetainedAllOk(m.retained, m.generation + 1)
    ensures RetainedAllOk(m.retained, m.generation + 2)
  {
  }

  lemma SingleGood(generation: nat, through: nat, pub: Uuid, cpId: Uuid, head: Oid, size: nat)
    requires 1 <= through <= generation && size > 0
    ensures Good(Single(generation, through, pub, cpId, head, size))
  {
    var m := Single(generation, through, pub, cpId, head, size);
    assert KeysOf(m.increments) == [];
    assert AllKeys(m) == multiset{m.checkpoint.key};
  }

  lemma OnceMore<T(!new)>(next: multiset<T>, x: T, bag: multiset<T>)
    requires next <= multiset{x} + bag && Once(bag) && x !in bag
    ensures Once(next)
  {
    forall y ensures next[y] <= 1 {
      assert (multiset{x} + bag)[y] <= 1;
    }
  }

  lemma CompactGood(m: Manifest, plan: Plan, cpId: Uuid, retain: nat, size: nat)
    requires plan.Ok() && plan.PrefixPresent(m) && Good(m) && cpId !in Ids(m) && size > 0
    ensures Good(Compact(m, plan, cpId, retain, size))
  {
    CompactActive(m, plan, cpId, retain, size);
    CompactRetained(m, plan, cpId, retain, size);
    CompactKeys(m, plan, cpId, retain, size);
    CompactCheckpointIds(m, plan, cpId, retain, size);
    CompactPairs(m, plan, cpId, retain, size);
    var next, key := Compact(m, plan, cpId, retain, size), Key(CheckpointPack, plan.Last().generation, cpId);
    if key in AllKeys(m) { KeyIdsInIds(m, key); }
    if cpId in CheckpointIds(m) { CheckpointIdsInIds(m, cpId); }
    OnceMore(AllKeys(next), key, AllKeys(m));
    OnceMore(CheckpointIds(next), cpId, CheckpointIds(m));
    PlanCutoff(m, plan);
  }

  ghost predicate GoodOption(obs: Option<Manifest>) { obs.Some? ==> Good(obs.value) }

  ghost function IdsOf(obs: Option<Manifest>): set<Uuid> { if obs.None? then {} else Ids(obs.value) }

  ghost function RootsOf(obs: Option<Manifest>): set<Key> { if obs.None? then {} else Roots(obs.value) }

  function ThroughOf(obs: Option<Manifest>): nat { if obs.None? then 0 else obs.value.checkpoint.through }

  /** All five writers turn a good observed manifest and fresh identifiers into a good one, so the
      encoder's validation never refuses a proposal. */
  lemma BuildGood(obs: Option<Manifest>, e: Edit)
    requires EditOk(obs, e) && GoodOption(obs) && Fresh(e) !! IdsOf(obs)
    ensures Good(Build(obs, e))
  {
    match e
    case First(pub, cp, head, size) => SingleGood(1, 1, pub, cp, head, size);
    case Append(pub, head, size) => AppendGood(obs.value, pub, head, size);
    case Quota(pub, cp, head, size) =>
      SingleGood(obs.value.generation + 1, NextIncrement(obs.value), pub, cp, head, size);
    case Root(pub, cp, head, size) => SingleGood(Generation(obs) + 1, Generation(obs) + 1, pub, cp, head, size);
    case Prefix(plan, cp, retain, size) => CompactGood(obs.value, plan, cp, retain, size);
  }

  lemma SingleNames(generation: nat, through: nat, pub: Uuid, cpId: Uuid, head: Oid, size: nat)
    ensures Roots(Single(generation, through, pub, cpId, head, size)) == {Key(CheckpointPack, through, cpId)}
    ensures Ids(Single(generation, through, pub, cpId, head, size)) == {pub, cpId}
  {
    var m := Single(generation, through, pub, cpId, head, size);
    assert KeysOf(m.increments) == [];
    assert AllKeys(m) == multiset{m.checkpoint.key};
    assert Pairs(m) == {(pub, head)};
    assert m.checkpoint.key in AllKeys(m) && (pub, head) in Pairs(m);
  }

  lemma NamesGrow(m: Manifest, next: Manifest, key: Key, pairs: set<(Uuid, Oid)>, drawn: set<Uuid>)
    requires AllKeys(next) <= multiset{key} + AllKeys(m) && key.id in drawn
    requires Pairs(next) <= Pairs(m) + pairs && forall p :: p in pairs ==> p.0 in drawn
    ensures Roots(next) <= Roots(m) + {key}
    ensures Ids(next) <= Ids(m) + drawn
  {
    forall k | k in AllKeys(next) ensures k == key || k in AllKeys(m) {
      assert k in multiset{key} + AllKeys(m);
    }
  }

  lemma AppendDerives(m: Manifest, pub: Uuid, head: Oid, size: nat)
    ensures Roots(Append1(m, pub, head, size)) <= Roots(m) + {Key(IncrementPack, NextIncrement(m), pub)}
    ensures Ids(Append1(m, pub, head, size)) <= Ids(m) + {pub}
  {
    AppendNames(m, pub, head, size);
    NamesGrow(m, Append1(m, pub, head, size), Key(IncrementPack, NextIncrement(m), pub), {(pub, head)}, {pub});
  }

  lemma CompactDerives(m: Manifest, plan: Plan, cpId: Uuid, retain: nat, size: nat)
    requires plan.Ok() && plan.PrefixPresent(m)
    ensures Roots(Compact(m, plan, cpId, retain, size)) <= Roots(m) + {Key(CheckpointPack, plan.Last().generation,
      cpId)}
    ensures Ids(Compact(m, plan, cpId, retain, size)) <= Ids(m) + {cpId}
  {
    CompactKeys(m, plan, cpId, retain, size);
    CompactPairs(m, plan, cpId, retain, size);
    NamesGrow(m, Compact(m, plan, cpId, retain, size), Key(CheckpointPack, plan.Last().generation, cpId), {}, {cpId});
  }

  /** A derived manifest names nothing but what it observed and the one key it uploaded. */
  lemma BuildNames(obs: Option<Manifest>, e: Edit)
    requires EditOk(obs, e)
    ensures Roots(Build(obs, e)) <= RootsOf(obs) + {PackKey(obs, e)}
    ensures Ids(Build(obs, e)) <= IdsOf(obs) + Fresh(e)
  {
    match e
    case First(pub, cp, head, size) => SingleNames(1, 1, pub, cp, head, size);
    case Append(pub, head, size) => AppendDerives(obs.value, pub, head, size);
    case Quota(pub, cp, head, size) =>
      SingleNames(obs.value.generation + 1, NextIncrement(obs.value), pub, cp, head, size);
    case Root(pub, cp, head, size) =>
      SingleNames(Generation(obs) + 1, Generation(obs) + 1, pub, cp, head, size);
    case Prefix(plan, cp, retain, size) => CompactDerives(obs.value, plan, cp, retain, size);
  }

  /** The uploaded pack's key carries a drawn identifier. */
  lemma PackKeyDrawn(obs: Option<Manifest>, e: Edit)
    requires EditOk(obs, e)
    ensures PackKey(obs, e).id in Fresh(e)
  {
  }

  /** The uploaded pack's key lies above the observed cutoff. */
  lemma PackKeyAbove(obs: Option<Manifest>, e: Edit)
    requires EditOk(obs, e) && GoodOption(obs)
    ensures PackKey(obs, e).id in Fresh(e)
    ensures ThroughOf(obs) < PackKey(obs, e).generation
  {
    if e.Prefix? { PlanCutoff(obs.value, e.plan); }
  }

  lemma PlanCutoff(m: Manifest, plan: Plan)
    requires Good(m) && plan.Ok() && plan.PrefixPresent(m)
    ensures plan.Last() == m.increments[plan.count - 1]
    ensures plan.Last().generation == m.checkpoint.through + plan.count
  {
    assert plan.Last() == m.increments[..plan.count][plan.count - 1];
    assert LinkOk(m.checkpoint, m.increments, plan.count - 1);
  }

  /** Generations strictly increase; the checkpoint cutoff never moves back and moves on whenever
      the chain is compacted, and then it reaches the uploaded pack's generation. */
  lemma BuildAdvances(obs: Option<Manifest>, e: Edit)
    requires EditOk(obs, e) && GoodOption(obs)
    ensures Build(obs, e).generation == Generation(obs) + 1
    ensures ThroughOf(obs) <= Build(obs, e).checkpoint.through
    ensures !e.Append? ==> ThroughOf(obs) < Build(obs, e).checkpoint.through
    ensures !e.Append? ==> Build(obs, e).checkpoint.through == PackKey(obs, e).generation
  {
    if e.Prefix? { PlanCutoff(obs.value, e.plan); }
  }

  // ---- The views and rules, descriptor by descriptor ----

  predicate ChainNames(cp: Checkpoint, incs: seq<Increment>, k: Key)
  {
    cp.key == k || exists i :: 0 <= i < |incs| && incs[i].key == k
  }

  predicate ChainPublishes(cp: Checkpoint, incs: seq<Increment>, id: Uuid)
  {
    cp.publication == id || exists i :: 0 <= i < |incs| && incs[i].publication == id
  }

  lemma ChainKeysAre(cp: Checkpoint, incs: seq<Increment>, k: Key)
    ensures k in ChainKeys(cp, incs) <==> ChainNames(cp, incs, k)
  {
    assert forall i :: 0 <= i < |incs| ==> KeysOf(incs)[i] == incs[i].key;
    if k in ChainKeys(cp, incs) && k != cp.key { var i :| 0 <= i < |incs| && KeysOf(incs)[i] == k; }
    forall i | 0 <= i < |incs| && incs[i].key == k ensures k in ChainKeys(cp, incs) { assert KeysOf(incs)[i] == k; }
  }

  /** Some retained generation names this key. */
  predicate RetainedNames(rs: seq<Retained>, k: Key)
  {
    exists j :: 0 <= j < |rs| && ChainNames(rs[j].checkpoint, rs[j].increments, k)
  }

  predicate RetainedPublishes(rs: seq<Retained>, id: Uuid)
  {
    exists j :: 0 <= j < |rs| && ChainPublishes(rs[j].checkpoint, rs[j].increments, id)
  }

  lemma OneMoreRetained(rs: seq<Retained>, k: Key, id: Uuid)
    requires rs != []
    ensures RetainedNames(rs, k) <==> ChainNames(rs[0].checkpoint, rs[0].increments, k) || RetainedNames(rs[1..], k)
    ensures RetainedPublishes(rs, id) <==>
            ChainPublishes(rs[0].checkpoint, rs[0].increments, id) || RetainedPublishes(rs[1..], id)
  {
    var rest := rs[1..];
    forall j | 0 <= j < |rest| ensures rest[j] == rs[j + 1] { }
    if RetainedNames(rs, k) {
      var j :| 0 <= j < |rs| && ChainNames(rs[j].checkpoint, rs[j].increments, k);
      if j > 0 { assert rest[j - 1] == rs[j]; }
    }
    if RetainedPublishes(rs, id) {
      var j :| 0 <= j < |rs| && ChainPublishes(rs[j].checkpoint, rs[j].increments, id);
      if j > 0 { assert rest[j - 1] == rs[j]; }
    }
  }

  lemma {:induction false} RetainedKeysAre(rs: seq<Retained>, k: Key)
    ensures k in RetainedKeys(rs) <==> RetainedNames(rs, k)
  {
    if rs != [] {
      ChainKeysAre(rs[0].checkpoint, rs[0].increments, k);
      RetainedKeysAre(rs[1..], k);
      OneMoreRetained(rs, k, 0);
    }
  }

  /** The referenced packs are exactly those of the active and the retained descriptors. */
  lemma RootsAre(m: Manifest, k: Key)
    ensures k in Roots(m) <==>
            ChainNames(m.checkpoint, m.increments, k) || RetainedNames(m.retained, k)
  {
    ChainKeysAre(m.checkpoint, m.increments, k);
    RetainedKeysAre(m.retained, k);
  }

  lemma {:induction false} RetainedPairsAre(rs: seq<Retained>, id: Uuid)
    ensures (exists p :: p in RetainedPairs(rs) && p.0 == id) <==> RetainedPublishes(rs, id)
  {
    if rs != [] {
      ChainPairsAre(rs[0].checkpoint, rs[0].increments, id);
      RetainedPairsAre(rs[1..], id);
      OneMoreRetained(rs, Key(CheckpointPack, 0, 0), id);
      if p :| p in RetainedPairs(rs[1..]) && p.0 == id { assert p in RetainedPairs(rs); }
      if p :| p in ChainPairs(rs[0].checkpoint, rs[0].increments) && p.0 == id { assert p in RetainedPairs(rs); }
    }
  }

  lemma ChainPairsAre(cp: Checkpoint, incs: seq<Increment>, id: Uuid)
    ensures (exists p :: p in ChainPairs(cp, incs) && p.0 == id) <==> ChainPublishes(cp, incs, id)
  {
    assert (cp.publication, cp.head) in ChainPairs(cp, incs);
    forall i | 0 <= i < |incs| ensures (incs[i].publication, incs[i].head) in ChainPairs(cp, incs) { }
  }

  /** The lost-response lookup reads every active and retained descriptor. */
  lemma PublicationInIs(m: Manifest, id: Uuid)
    ensures PublicationIn(m, id) <==>
            ChainPublishes(m.checkpoint, m.increments, id) || RetainedPublishes(m.retained, id)
  {
    ChainPairsAre(m.checkpoint, m.increments, id);
    RetainedPairsAre(m.retained, id);
    if p :| p in ChainPairs(m.checkpoint, m.increments) && p.0 == id { assert p in Pairs(m); }
    if p :| p in RetainedPairs(m.retained) && p.0 == id { assert p in Pairs(m); }
  }

  /** A chain, field by field. */
  ghost predicate Linked(cp: Checkpoint, incs: seq<Increment>, head: Oid)
  {
    && cp.key == Key(CheckpointPack, cp.through, cp.id) && cp.size > 0
    && (forall i :: 0 <= i < |incs| ==>
          && incs[i].generation == cp.through + 1 + i && incs[i].size > 0
          && incs[i].key == Key(IncrementPack, incs[i].generation, incs[i].publication)
          && (i > 0 ==> incs[i].parent == incs[i - 1].head))
    && (if incs == [] then head == cp.head else incs[0].parent == cp.head && head == incs[|incs| - 1].head)
  }

  lemma ChainIsLinked(cp: Checkpoint, incs: seq<Increment>)
    requires ChainOk(cp, incs)
    ensures Linked(cp, incs, ChainHead(cp, incs))
  {
    if incs != [] { assert LinkOk(cp, incs, 0); }
    forall i | 0 <= i < |incs|
      ensures incs[i].generation == cp.through + 1 + i && incs[i].size > 0
      ensures incs[i].key == Key(IncrementPack, incs[i].generation, incs[i].publication)
      ensures i > 0 ==> incs[i].parent == incs[i - 1].head
    {
      assert LinkOk(cp, incs, i);
    }
  }

  /** Retained generation j was retired before the one in front of it, ends where that one begins, and is a
      chain of its own. */
  ghost predicate RetiredInOrder(m: Manifest, j: nat)
    requires j < |m.retained|
  {
    var r, cp := m.retained[j], if j == 0 then m.checkpoint else m.retained[j - 1].checkpoint;
    && (if j == 0 then r.retiredAt <= m.generation else r.retiredAt < m.retained[j - 1].retiredAt)
    && r.head == cp.head && r.checkpoint.through + |r.increments| == cp.through
    && Linked(r.checkpoint, r.increments, r.head)
  }

  lemma {:induction false} RetainedInOrder(m: Manifest, rs: seq<Retained>, cp: Checkpoint, limit: nat, n: nat, j: nat)
    requires n <= j < |m.retained| && rs == m.retained[n..] && RetainedAllOk(rs, limit) && Splices(cp, rs)
    requires cp == if n == 0 then m.checkpoint else m.retained[n - 1].checkpoint
    requires limit == if n == 0 then m.generation + 1 else m.retained[n - 1].retiredAt
    ensures RetiredInOrder(m, j)
    decreases j - n
  {
    if n < j {
      RetainedInOrder(m, rs[1..], rs[0].checkpoint, rs[0].retiredAt, n + 1, j);
    } else {
      ChainIsLinked(rs[0].checkpoint, rs[0].increments);
    }
  }

  /** What every accepted manifest obeys, descriptor by descriptor. */
  lemma GoodMeans(m: Manifest)
    requires Good(m)
    ensures m.generation >= 1 && m.checkpoint.through + |m.increments| <= m.generation
    ensures Linked(m.checkpoint, m.increments, m.head)
    ensures forall j :: 0 <= j < |m.retained| ==> RetiredInOrder(m, j)
    ensures forall k :: AllKeys(m)[k] <= 1
  {
    ChainIsLinked(m.checkpoint, m.increments);
    forall j | 0 <= j < |m.retained| ensures RetiredInOrder(m, j) {
      assert m.retained[0..] == m.retained;
      RetainedInOrder(m, m.retained, m.checkpoint, m.generation + 1, 0, j);
    }
  }

  // ---- What each writer keeps ----

  /** A commit adds one increment and keeps everything else as it was. */
  lemma AppendKeeps(m: Manifest, e: Edit)
    requires e.Append? && EditOk(Some(m), e)
    ensures var next, n := Build(Some(m), e), |m.increments|;
            && next.checkpoint == m.checkpoint && next.retained == m.retained && next.head == e.head
            && |next.increments| == n + 1 && next.increments[..n] == m.increments
            && var added := next.increments[n];
               && added.publication == e.publication && added.parent == m.head && added.head == e.head
               && added.size == e.size && added.generation == m.checkpoint.through + n + 1
               && added.key == PackKey(Some(m), e)
  {
  }

  /** A compaction conserves the chain: the retired generation holds the replaced checkpoint and the
      selected increments, the rest stays, and the newest min(retain, n + 1) retired generations are
      kept in order. */
  lemma CompactKeeps(m: Manifest, e: Edit)
    requires e.Prefix? && EditOk(Some(m), e)
    ensures var next, n := Build(Some(m), e), |m.retained|;
            && m.increments == e.plan.manifest.increments[..e.plan.count] + next.increments
            && |next.retained| == (if e.retain < n + 1 then e.retain else n + 1)
            && (forall i :: 0 < i < |next.retained| ==> next.retained[i] == m.retained[i - 1])
            && (next.retained != [] ==>
                  && next.retained[0].retiredAt == next.generation && next.retained[0].head == next.checkpoint.head
                  && next.retained[0].checkpoint == m.checkpoint
                  && next.retained[0].increments + next.increments == m.increments)
            && next.checkpoint.id == e.cpId && next.checkpoint.size == e.size
            && next.checkpoint.key == PackKey(Some(m), e)
            && var last := e.plan.manifest.increments[e.plan.count - 1];
               next.checkpoint.publication == last.publication && next.checkpoint.head == last.head
  {
    assert m.increments == m.increments[..e.plan.count] + m.increments[e.plan.count..];
  }

  /** Every other writer starts over with its one checkpoint. */
  lemma SingleStartsOver(obs: Option<Manifest>, e: Edit)
    requires EditOk(obs, e) && (e.First? || e.Quota? || e.Root?)
    ensures var next := Build(obs, e);
            && next.increments == [] && next.retained == [] && next.head == next.checkpoint.head == e.head
            && next.checkpoint.publication == e.publication && next.checkpoint.id == e.cpId
            && next.checkpoint.size == e.size && next.checkpoint.key == PackKey(obs, e)
  {
  }

  /** A compaction that trims nothing keeps every publication on record. */
  lemma CompactKeepsPairs(m: Manifest, plan: Plan, cpId: Uuid, retain: nat, size: nat)
    requires plan.Ok() && plan.PrefixPresent(m)
    requires |Compact(m, plan, cpId, retain, size).retained| == |m.retained| + 1
    ensures Pairs(m) <= Pairs(Compact(m, plan, cpId, retain, size))
  {
    var n, next := plan.count, Compact(m, plan, cpId, retain, size);
    Cons(Retire(m, plan), m.retained);
    forall i | 0 <= i < |m.increments|
      ensures if i < n then m.increments[i] == m.increments[..n][i] else m.increments[i] == next.increments[i - n]
    {
    }
  }

  /** Keys of a retained list lie at or below the cutoff of the chain it splices into. */
  lemma {:induction false} RetainedKeysBelow(cp: Checkpoint, rs: seq<Retained>, limit: nat, k: Key)
    requires Splices(cp, rs) && RetainedAllOk(rs, limit) && k in RetainedKeys(rs)
    ensures k.generation <= cp.through
    decreases |rs|
  {
    assert rs[0].increments[..|rs[0].increments|] == rs[0].increments;
    if k in ChainKeys(rs[0].checkpoint, rs[0].increments) {
      ChainKeysBelow(rs[0].checkpoint, rs[0].increments, |rs[0].increments|, k);
    } else {
      RetainedKeysBelow(rs[0].checkpoint, rs[1..], rs[0].retiredAt, k);
    }
  }

  lemma ChainKeysBelow(cp: Checkpoint, incs: seq<Increment>, n: nat, k: Key)
    requires ChainOk(cp, incs) && n <= |incs| && k in ChainKeys(cp, incs[..n])
    ensures k.generation <= cp.through + n
  {
    if k != cp.key {
      var i :| 0 <= i < n && KeysOf(incs[..n])[i] == k;
      assert LinkOk(cp, incs, i);
    }
  }

  /** Whatever a writer's manifest no longer names lies at or below its new cutoff. */
  lemma BuildDrops(obs: Option<Manifest>, e: Edit, k: Key)
    requires EditOk(obs, e) && GoodOption(obs) && k in RootsOf(obs) && k !in Roots(Build(obs, e))
    ensures !e.Append? && k.generation <= Build(obs, e).checkpoint.through
  {
    var m := obs.value;
    if e.Append? {
      AppendNames(m, e.publication, e.head, e.size);
    } else if k in RetainedKeys(m.retained) {
      RetainedKeysBelow(m.checkpoint, m.retained, m.generation + 1, k);
      BuildAdvances(obs, e);
    } else if e.Prefix? {
      DroppedByCompaction(m, e, k);
    } else {
      assert m.increments[..|m.increments|] == m.increments;
      ChainKeysBelow(m.checkpoint, m.increments, |m.increments|, k);
    }
  }

  lemma DroppedByCompaction(m: Manifest, e: Edit, k: Key)
    requires Good(m) && e.Prefix? && EditOk(Some(m), e) && k in ChainKeys(m.checkpoint, m.increments)
    requires k !in Roots(Build(Some(m), e))
    ensures k.generation <= Build(Some(m), e).checkpoint.through
  {
    var n, next := e.plan.count, Build(Some(m), e);
    PlanCutoff(m, e.plan);
    SplitKeys(m.increments, n);
    assert k !in AllKeys(next);
    assert k in ChainKeys(m.checkpoint, m.increments[..n]);
    ChainKeysBelow(m.checkpoint, m.increments, n, k);
  }

  // ---- A selected prefix cannot come back ----

  lemma IncrementInIds(m: Manifest, i: nat)
    requires i < |m.increments|
    ensures m.increments[i].publication in Ids(m)
  {
    assert (m.increments[i].publication, m.increments[i].head) in Pairs(m);
  }

  lemma FirstGeneration(m: Manifest)
    requires Good(m) && m.increments != []
    ensures m.increments[0].generation == m.checkpoint.through + 1
  {
    assert LinkOk(m.checkpoint, m.increments, 0);
  }

  lemma SamePrefixSameCutoff(plan: Plan, m: Manifest)
    requires plan.Ok() && Good(plan.manifest) && Good(m) && plan.PrefixPresent(m)
    ensures m.checkpoint.through == plan.manifest.checkpoint.through
  {
    var p, n := plan.manifest, plan.count;
    FirstGeneration(p);
    FirstGeneration(m);
    assert p.increments[0] == p.increments[..n][0] == m.increments[..n][0] == m.increments[0];
  }

  lemma PrefixStaysOnAppend(m: Manifest, pub: Uuid, head: Oid, size: nat, plan: Plan)
    requires plan.Ok() && pub !in Ids(plan.manifest) && plan.PrefixPresent(Append1(m, pub, head, size))
    ensures plan.PrefixPresent(m)
  {
    var next, p, n := Append1(m, pub, head, size), plan.manifest, plan.count;
    SameLast(p.increments, next.increments, n);
    IncrementInIds(p, n - 1);
    assert next.increments[..n] == m.increments[..n];
  }

  lemma SameLast<T>(a: seq<T>, b: seq<T>, n: nat)
    requires 0 < n <= |a| && n <= |b| && a[..n] == b[..n]
    ensures a[n - 1] == b[n - 1]
  {
    assert a[..n][n - 1] == b[..n][n - 1];
  }

  /** A selected prefix found in a derived manifest was already in the observed one: appended
      increments are new, and compaction moves the cutoff past the prefix for good. */
  lemma PrefixStays(obs: Option<Manifest>, e: Edit, plan: Plan)
    requires EditOk(obs, e) && GoodOption(obs) && Fresh(e) !! IdsOf(obs)
    requires plan.Ok() && Good(plan.manifest) && Fresh(e) !! Ids(plan.manifest)
    requires plan.manifest.checkpoint.through <= ThroughOf(obs)
    requires plan.PrefixPresent(Build(obs, e))
    ensures obs.Some? && plan.PrefixPresent(obs.value)
  {
    if e.Append? {
      PrefixStaysOnAppend(obs.value, e.publication, e.head, e.size, plan);
    } else {
      var next := Build(obs, e);
      assert Good(next) by { BuildGood(obs, e); }
      SamePrefixSameCutoff(plan, next);
      BuildAdvances(obs, e);
    }
  }
}
