/** What every interleaving of the publication protocol keeps. */
module PublicationSafety {
  import opened Manifest
  import opened Wrappers
  import opened Publication

  // ---- The accepted history ----

  function Current(g: Global): Option<Manifest> { Seen(g.current) }

  function Before(log: seq<Manifest>, i: nat): Option<Manifest>
    requires i <= |log|
  {
    if i == 0 then None else Some(log[i - 1])
  }

  /** Accepted manifest i was built by edit i directly on its predecessor, and a publishing edit's
      commit has the predecessor's head as its only parent. */
  ghost predicate LinkHolds(g: Global, i: nat)
    requires i < |g.log| == |g.edits|
  {
    && EditOk(Before(g.log, i), g.edits[i])
    && g.log[i] == Build(Before(g.log, i), g.edits[i])
    && (!g.edits[i].Prefix? ==>
          g.log[i].head in g.parents && g.parents[g.log[i].head] == ParentOf(Before(g.log, i), g.edits[i]))
  }

  ghost predicate LinksHold(g: Global)
  {
    && |g.log| == |g.edits|
    && Current(g) == Before(g.log, |g.log|)
    && Generation(Current(g)) == |g.log|
    && g.accepted <= g.used
    && (forall i :: 0 <= i < |g.log| ==> LinkHolds(g, i))
  }

  /** Manifest m was accepted at some time. */
  ghost predicate Known(g: Global, m: Manifest) { m in g.log }

  ghost predicate KnownOption(g: Global, obs: Option<Object>) { obs.Some? ==> Known(g, obs.value.manifest) }

  /** An accepted manifest is good, lies behind the current one, and carries accepted ids only. */
  ghost predicate EntryHolds(g: Global, m: Manifest)
  {
    && Good(m) && Ids(m) <= g.accepted
    && m.generation <= |g.log|
    && m.checkpoint.through <= ThroughOf(Current(g))
  }

  ghost predicate EntriesHold(g: Global) { forall m :: Known(g, m) ==> EntryHolds(g, m) }

  // ---- Pending edits and writes in flight ----

  /** The edit was drafted against an accepted manifest with identifiers no manifest carries. */
  ghost predicate DraftHolds(g: Global, obs: Option<Object>, e: Edit)
  {
    && EditOk(Seen(obs), e) && KnownOption(g, obs)
    && Fresh(e) !! g.accepted && Fresh(e) <= g.used
    && (e.Prefix? ==> Known(g, e.plan.manifest))
    && (!e.Prefix? ==> e.head in g.parents && g.parents[e.head] == ParentOf(Seen(obs), e))
  }

  /** The store may still accept the edit: a publication while the observed manifest is current, a
      compaction while the current manifest starts with the selected prefix. */
  ghost predicate StillViable(g: Global, obs: Option<Object>, e: Edit)
  {
    if e.Prefix? then g.current.Some? && e.plan.Ok() && e.plan.PrefixPresent(g.current.value.manifest)
    else Current(g) == Seen(obs)
  }

  /** Its pack is stored for as long as it may be accepted. */
  ghost predicate ArmedHolds(g: Global, obs: Option<Object>, e: Edit)
  {
    DraftHolds(g, obs, e) && (StillViable(g, obs, e) ==> PackKey(Seen(obs), e) in g.packs)
  }

  ghost predicate WriteHolds(g: Global, w: Write) { ArmedHolds(g, w.obs, w.edit) && w.call in g.used }

  ghost predicate LandedHolds(g: Global, w: Write)
  {
    && WellMade(w) && Known(g, NextOf(w)) && w.call in g.used
    && Fresh(w.edit) <= g.accepted
    && (!w.edit.Append? ==> KeyOf(w).generation <= ThroughOf(Current(g)))
  }

  ghost predicate WritesHold(g: Global) { forall w :: w in g.wire ==> WriteHolds(g, w) }

  ghost predicate AllLandedHold(g: Global) { forall w :: w in g.landed ==> LandedHolds(g, w) }

  ghost predicate Distinct(w: Write, v: Write) { w != v ==> Fresh(w.edit) !! Fresh(v.edit) }

  /** Writes in flight carry different identifiers. */
  ghost predicate WiresApart(g: Global) { forall w, v :: w in g.wire && v in g.wire ==> Distinct(w, v) }

  ghost predicate AtMostOnce(w: Write, v: Write)
  {
    !w.edit.Prefix? && !v.edit.Prefix? && w.call == v.call ==> w == v
  }

  /** One call has at most one publication that is accepted or can still be accepted. */
  ghost predicate OncePerCall(g: Global)
  {
    forall w, v :: w in g.wire + g.landed && v in g.wire + g.landed ==> AtMostOnce(w, v)
  }

  /** Every pack the current manifest references is stored. */
  ghost predicate RootsStored(g: Global) { RootsOf(Current(g)) <= g.packs }

  /** A key a delete request may remove is unreferenced, and old enough for the current cutoff or under
      an identifier that was given up. */
  ghost predicate Deletable(g: Global, k: Key)
  {
    k !in RootsOf(Current(g)) && (CutoffHolds(g, k.generation) || k.id in g.dropped)
  }

  ghost predicate DoomedDeletable(g: Global) { forall k :: k in g.doomed ==> Deletable(g, k) }

  /** Identifiers given up are in no manifest and in no write in flight. */
  ghost predicate DroppedApart(g: Global)
  {
    g.dropped <= g.used && g.dropped !! g.accepted && forall w :: w in g.wire ==> g.dropped !! Fresh(w.edit)
  }

  ghost predicate GlobalHolds(g: Global)
  {
    && LinksHold(g) && EntriesHold(g) && WritesHold(g) && AllLandedHold(g) && WiresApart(g) && OncePerCall(g)
    && RootsStored(g) && DoomedDeletable(g) && DroppedApart(g)
  }

  // ---- One process ----

  /** Identifiers drawn by the process that no write in flight carries. */
  function Held(ph: Phase): set<Uuid>
  {
    if ph.Drafted? || ph.Packed? then Fresh(ph.edit)
    else if ph.PlanDrafted? || ph.PlanPacked? then {ph.cpId}
    else if ph.Discard? then {ph.key.id}
    else {}
  }

  ghost predicate PlanHolds(g: Global, plan: Plan, cpId: Uuid, size: nat)
  {
    plan.Ok() && Known(g, plan.manifest) && cpId !in g.accepted && cpId in g.used && size > 0
  }

  ghost predicate PlanArmed(g: Global, plan: Plan, cpId: Uuid, size: nat)
  {
    && PlanHolds(g, plan, cpId, size)
    && (g.current.Some? && plan.PrefixPresent(g.current.value.manifest) ==> PlanKey(plan, cpId) in g.packs)
  }

  ghost predicate CutoffHolds(g: Global, cutoff: nat) { g.current.Some? && cutoff <= ThroughOf(Current(g)) }

  ghost predicate DoomedHolds(g: Global, cutoff: nat, keys: set<Key>)
  {
    CutoffHolds(g, cutoff) && forall k :: k in keys ==> k.generation <= cutoff && k !in RootsOf(Current(g))
  }

  ghost predicate InFlight(g: Global, w: Write) { WellMade(w) && (w in g.wire || w in g.landed) }

  ghost predicate PhaseHolds(g: Global, ph: Phase)
  {
    match ph
    case Observed(obs) => KnownOption(g, obs)
    case Drafted(obs, e) => DraftHolds(g, obs, e) && !e.Prefix?
    case Packed(obs, e) => ArmedHolds(g, obs, e)
    case Waiting(w) => InFlight(g, w)
    case Lost(w) => InFlight(g, w)
    case Discard(key, _) => key.id !in g.accepted && key.id in g.used
    case Won(w) => w in g.landed && !w.edit.Prefix?
    case PlanDrafted(plan, cpId, size) => PlanHolds(g, plan, cpId, size)
    case PlanPacked(plan, cpId, size) => PlanArmed(g, plan, cpId, size)
    case Sweep(cutoff) => CutoffHolds(g, cutoff)
    case Doomed(cutoff, keys) => DoomedHolds(g, cutoff, keys)
    case _ => true
  }

  /** No publication of the call is accepted or can still be accepted. */
  ghost predicate Untouched(g: Global, call: Uuid)
  {
    forall w :: w in g.wire + g.landed ==> w.edit.Prefix? || w.call != call
  }

  /** A publication of the call was accepted. */
  ghost predicate Accepted(g: Global, call: Uuid)
  {
    exists w :: w in g.landed && !w.edit.Prefix? && w.call == call
  }

  ghost predicate CallHolds(g: Global, pr: Proc)
  {
    && (!pr.phase.Idle? ==> pr.call in g.used)
    && match pr.phase
       case Idle => true
       case Waiting(w) => w.call == pr.call && (w.edit.Prefix? ==> Accepted(g, pr.call))
       case Lost(w) => w.call == pr.call && (w.edit.Prefix? ==> Accepted(g, pr.call))
       case Discard(_, _) => Untouched(g, pr.call)
       case Rewrapping(_) => Untouched(g, pr.call)
       case Finished(Unproved) => true
       case Finished(Failed) => true
       case Finished(Published) => Accepted(g, pr.call)
       case Finished(_) => Untouched(g, pr.call)
       case _ => if Publishing(pr.phase) then Untouched(g, pr.call) else Accepted(g, pr.call)
  }

  /** Attempts and manifest writes stay within the retry bound. */
  predicate Bounded(pr: Proc)
  {
    && pr.attempt <= pr.limit + 1
    && pr.runs <= pr.attempt + (if pr.strict then 1 else 0)
    && pr.requests <= pr.attempt && pr.efforts <= pr.limit + 1
    && (Publishing(pr.phase) ==> pr.requests < pr.attempt)
  }

  /** Identifiers in hand are disjoint from those in flight and from those given up. */
  ghost predicate HeldApart(g: Global, ph: Phase)
  {
    Held(ph) !! g.dropped && forall w :: w in g.wire ==> Held(ph) !! Fresh(w.edit)
  }

  ghost predicate ProcHolds(g: Global, pr: Proc)
  {
    PhaseHolds(g, pr.phase) && HeldApart(g, pr.phase) && CallHolds(g, pr) && Bounded(pr)
  }

  ghost predicate PairApart(a: Proc, b: Proc)
  {
    Held(a.phase) !! Held(b.phase) && (!a.phase.Idle? && !b.phase.Idle? ==> a.call != b.call)
  }

  ghost predicate Invariant(s: State)
  {
    && GlobalHolds(s.g)
    && (forall p :: p in s.procs ==> ProcHolds(s.g, s.procs[p]))
    && (forall p, q :: p in s.procs && q in s.procs && p != q ==> PairApart(s.procs[p], s.procs[q]))
  }

  // ---- Nothing accepted: frames ----

  ghost predicate ParentsGrow(a: map<Oid, Option<Oid>>, b: map<Oid, Option<Oid>>)
  {
    forall h :: h in a ==> h in b && b[h] == a[h]
  }

  /** Nothing was accepted between g and h. */
  ghost predicate SameHistory(g: Global, h: Global)
  {
    && h.log == g.log && h.edits == g.edits && h.accepted == g.accepted && h.landed == g.landed
    && Current(h) == Current(g) && g.used <= h.used && ParentsGrow(g.parents, h.parents)
  }

  lemma SameLinks(g: Global, h: Global)
    requires SameHistory(g, h) && LinksHold(g)
    ensures LinksHold(h)
  {
    forall i | 0 <= i < |h.log| ensures LinkHolds(h, i) { assert LinkHolds(g, i); }
  }

  lemma SameEntries(g: Global, h: Global)
    requires SameHistory(g, h) && EntriesHold(g)
    ensures EntriesHold(h)
  {
    forall m | Known(h, m) ensures EntryHolds(h, m) { assert Known(g, m) && EntryHolds(g, m); }
  }

  lemma SameLanded(g: Global, h: Global)
    requires SameHistory(g, h) && AllLandedHold(g)
    ensures AllLandedHold(h)
  {
    forall w | w in h.landed ensures LandedHolds(h, w) { assert LandedHolds(g, w); }
  }

  lemma SameDraft(g: Global, h: Global, obs: Option<Object>, e: Edit)
    requires SameHistory(g, h) && DraftHolds(g, obs, e)
    ensures DraftHolds(h, obs, e)
    ensures StillViable(h, obs, e) <==> StillViable(g, obs, e)
  {
    assert h.current.Some? == Current(h).Some? && g.current.Some? == Current(g).Some?;
  }

  lemma SameArmed(g: Global, h: Global, obs: Option<Object>, e: Edit)
    requires SameHistory(g, h) && g.packs <= h.packs && ArmedHolds(g, obs, e)
    ensures ArmedHolds(h, obs, e)
  {
    SameDraft(g, h, obs, e);
  }

  lemma SameWrites(g: Global, h: Global)
    requires SameHistory(g, h) && g.packs <= h.packs && h.wire <= g.wire && WritesHold(g)
    ensures WritesHold(h)
  {
    forall w | w in h.wire ensures WriteHolds(h, w) {
      assert WriteHolds(g, w);
      SameArmed(g, h, w.obs, w.edit);
    }
  }

  lemma SameOnce(g: Global, h: Global)
    requires h.wire <= g.wire && h.landed <= g.landed && OncePerCall(g) && WiresApart(g)
    ensures OncePerCall(h) && WiresApart(h)
  {
    forall w, v | w in h.wire + h.landed && v in h.wire + h.landed ensures AtMostOnce(w, v) {
      assert w in g.wire + g.landed && v in g.wire + g.landed;
    }
  }

  /** Storing packs, drawing identifiers, refusing a write or rewrapping the doors. */
  lemma SameGlobal(g: Global, h: Global)
    requires SameHistory(g, h) && g.packs <= h.packs && h.wire <= g.wire && GlobalHolds(g)
    requires h.doomed == g.doomed && h.dropped == g.dropped
    ensures GlobalHolds(h)
  {
    SameLinks(g, h);
    SameEntries(g, h);
    SameLanded(g, h);
    SameWrites(g, h);
    SameOnce(g, h);
    SameDoomed(g, h);
  }

  lemma SameDoomed(g: Global, h: Global)
    requires SameHistory(g, h) && h.doomed == g.doomed && h.dropped == g.dropped && DoomedDeletable(g)
    ensures DoomedDeletable(h)
  {
    forall k | k in h.doomed ensures Deletable(h, k) { assert Deletable(g, k); }
  }

  lemma SamePhase(g: Global, h: Global, ph: Phase)
    requires SameHistory(g, h) && g.packs <= h.packs && g.wire <= h.wire && PhaseHolds(g, ph)
    ensures PhaseHolds(h, ph)
  {
    assert h.current.Some? == Current(h).Some? && g.current.Some? == Current(g).Some?;
    match ph
    case Drafted(obs, e) => SameDraft(g, h, obs, e);
    case Packed(obs, e) => SameArmed(g, h, obs, e);
    case _ =>
  }

  lemma SameCall(g: Global, h: Global, pr: Proc)
    requires h.landed == g.landed && h.wire <= g.wire && g.used <= h.used && CallHolds(g, pr)
    ensures CallHolds(h, pr)
  {
    assert Accepted(g, pr.call) ==> Accepted(h, pr.call);
    assert Untouched(g, pr.call) ==> Untouched(h, pr.call) by {
      assert forall w :: w in h.wire + h.landed ==> w in g.wire + g.landed;
    }
  }

  lemma SameProc(g: Global, h: Global, pr: Proc)
    requires SameHistory(g, h) && g.packs <= h.packs && h.wire == g.wire && h.dropped == g.dropped && ProcHolds(g, pr)
    ensures ProcHolds(h, pr)
  {
    SamePhase(g, h, pr.phase);
    SameCall(g, h, pr);
  }

  // ---- Deleting packs ----

  lemma KnownIsGood(g: Global, obs: Option<Object>)
    requires EntriesHold(g) && KnownOption(g, obs)
    ensures GoodOption(Seen(obs)) && IdsOf(Seen(obs)) <= g.accepted
    ensures Generation(Seen(obs)) <= |g.log|
  {
    if obs.Some? { assert EntryHolds(g, obs.value.manifest); }
  }

  lemma CurrentIsKnown(g: Global)
    requires LinksHold(g)
    ensures KnownOption(g, g.current)
  {
  }

  /** The key of an edit the store may still accept lies above every cutoff a cleaner can use. */
  lemma ViableIsAbove(g: Global, obs: Option<Object>, e: Edit)
    requires LinksHold(g) && EntriesHold(g) && DraftHolds(g, obs, e) && StillViable(g, obs, e)
    ensures PackKey(Seen(obs), e).id in Fresh(e)
    ensures ThroughOf(Current(g)) < PackKey(Seen(obs), e).generation
  {
    KnownIsGood(g, obs);
    PackKeyAbove(Seen(obs), e);
    if e.Prefix? {
      CurrentIsKnown(g);
      KnownIsGood(g, g.current);
      PlanCutoff(g.current.value.manifest, e.plan);
    }
  }

  /** A delete request lands: some of the doomed keys go. */
  ghost predicate Deletes(g: Global, h: Global, keys: set<Key>)
  {
    h == g.(packs := g.packs - keys) && forall k :: k in keys ==> Deletable(g, k)
  }

  lemma DeleteKeepsArmed(g: Global, h: Global, keys: set<Key>, obs: Option<Object>, e: Edit)
    requires LinksHold(g) && EntriesHold(g) && Deletes(g, h, keys) && ArmedHolds(g, obs, e) && Fresh(e) !! g.dropped
    ensures ArmedHolds(h, obs, e)
  {
    SameDraft(g, h, obs, e);
    if StillViable(g, obs, e) { ViableIsAbove(g, obs, e); }
  }

  lemma DeleteKeepsPlan(g: Global, h: Global, keys: set<Key>, plan: Plan, cpId: Uuid, size: nat)
    requires LinksHold(g) && EntriesHold(g) && Deletes(g, h, keys) && PlanArmed(g, plan, cpId, size)
    requires cpId !in g.dropped
    ensures PlanArmed(h, plan, cpId, size)
  {
    if g.current.Some? && plan.PrefixPresent(g.current.value.manifest) {
      CurrentIsKnown(g);
      KnownIsGood(g, g.current);
      PlanCutoff(g.current.value.manifest, plan);
    }
  }

  lemma DeleteKeepsWrites(g: Global, h: Global, keys: set<Key>)
    requires LinksHold(g) && EntriesHold(g) && WritesHold(g) && DroppedApart(g) && Deletes(g, h, keys)
    ensures WritesHold(h)
  {
    forall w | w in h.wire ensures WriteHolds(h, w) {
      assert WriteHolds(g, w);
      DeleteKeepsArmed(g, h, keys, w.obs, w.edit);
    }
  }

  lemma DeleteKeepsGlobal(g: Global, h: Global, keys: set<Key>)
    requires GlobalHolds(g) && Deletes(g, h, keys)
    ensures GlobalHolds(h)
  {
    SameLinks(g, h);
    SameEntries(g, h);
    SameLanded(g, h);
    DeleteKeepsWrites(g, h, keys);
    SameOnce(g, h);
    SameDoomed(g, h);
  }

  lemma DeleteKeepsProc(g: Global, h: Global, keys: set<Key>, pr: Proc)
    requires LinksHold(g) && EntriesHold(g) && Deletes(g, h, keys) && ProcHolds(g, pr)
    ensures ProcHolds(h, pr)
  {
    SameCall(g, h, pr);
    match pr.phase
    case Drafted(obs, e) => SameDraft(g, h, obs, e);
    case Packed(obs, e) => DeleteKeepsArmed(g, h, keys, obs, e);
    case PlanPacked(plan, cpId, size) => DeleteKeepsPlan(g, h, keys, plan, cpId, size);
    case _ =>
  }

  // ---- Sending a delete request ----

  /** A delete request goes out for keys that are deletable once the given identifiers are given up. */
  ghost predicate Dooms(g: Global, h: Global, keys: set<Key>, ids: set<Uuid>)
  {
    h == g.(doomed := g.doomed + keys, dropped := g.dropped + ids) && forall k :: k in keys ==> Deletable(h, k)
  }

  lemma DoomKeepsGlobal(g: Global, h: Global, keys: set<Key>, ids: set<Uuid>)
    requires GlobalHolds(g) && Dooms(g, h, keys, ids)
    requires ids <= g.used && ids !! g.accepted && forall w :: w in g.wire ==> ids !! Fresh(w.edit)
    ensures GlobalHolds(h)
  {
    SameLinks(g, h);
    SameEntries(g, h);
    SameLanded(g, h);
    SameWrites(g, h);
    SameOnce(g, h);
    forall k | k in h.doomed ensures Deletable(h, k) { assert k in keys || Deletable(g, k); }
  }

  lemma DoomKeepsProc(g: Global, h: Global, keys: set<Key>, ids: set<Uuid>, pr: Proc)
    requires Dooms(g, h, keys, ids) && ProcHolds(g, pr) && Held(pr.phase) !! ids
    ensures ProcHolds(h, pr)
  {
    SamePhase(g, h, pr.phase);
    SameCall(g, h, pr);
  }

  // ---- Sending and refusing a write ----

  function Sent(g: Global, w: Write): Global { g.(wire := g.wire + {w}) }

  function Refused(g: Global, w: Write): Global { g.(wire := g.wire - {w}) }

  lemma SendKeepsOnce(g: Global, w: Write)
    requires OncePerCall(g) && (w.edit.Prefix? || Untouched(g, w.call))
    ensures OncePerCall(Sent(g, w))
  {
    var h := Sent(g, w);
    forall v, u | v in h.wire + h.landed && u in h.wire + h.landed ensures AtMostOnce(v, u) {
      assert v == w || v in g.wire + g.landed;
      assert u == w || u in g.wire + g.landed;
    }
  }

  lemma SendKeepsWrites(g: Global, w: Write)
    requires WritesHold(g) && WriteHolds(g, w)
    ensures WritesHold(Sent(g, w))
  {
    var h := Sent(g, w);
    forall v | v in h.wire ensures WriteHolds(h, v) {
      assert WriteHolds(g, v);
      SameArmed(g, h, v.obs, v.edit);
    }
  }

  lemma SendKeepsApart(g: Global, w: Write)
    requires WiresApart(g) && forall v :: v in g.wire ==> Fresh(w.edit) !! Fresh(v.edit)
    ensures WiresApart(Sent(g, w))
  {
    var h := Sent(g, w);
    forall v, u | v in h.wire && u in h.wire ensures Distinct(v, u) {
      assert v in g.wire && u in g.wire ==> Distinct(v, u);
    }
  }

  lemma SendKeepsDoomed(g: Global, w: Write)
    requires DoomedDeletable(g) && DroppedApart(g) && Fresh(w.edit) !! g.dropped
    ensures DoomedDeletable(Sent(g, w)) && DroppedApart(Sent(g, w))
  {
    SameDoomed(g, Sent(g, w));
  }

  lemma SendKeepsGlobal(g: Global, w: Write)
    requires GlobalHolds(g) && WriteHolds(g, w)
    requires Fresh(w.edit) !! g.dropped && forall v :: v in g.wire ==> Fresh(w.edit) !! Fresh(v.edit)
    requires w.edit.Prefix? || Untouched(g, w.call)
    ensures GlobalHolds(Sent(g, w))
  {
    var h := Sent(g, w);
    SendKeepsDoomed(g, w);
    SameLinks(g, h);
    SameEntries(g, h);
    SameLanded(g, h);
    SendKeepsWrites(g, w);
    SendKeepsApart(g, w);
    SendKeepsOnce(g, w);
  }

  lemma SendKeepsProc(g: Global, w: Write, pr: Proc)
    requires ProcHolds(g, pr)
    requires Held(pr.phase) !! Fresh(w.edit) && (pr.phase.Idle? || pr.call != w.call)
    ensures ProcHolds(Sent(g, w), pr)
  {
    var h := Sent(g, w);
    SamePhase(g, h, pr.phase);
    assert Accepted(g, pr.call) ==> Accepted(h, pr.call);
    assert !pr.phase.Idle? && Untouched(g, pr.call) ==> Untouched(h, pr.call) by {
      assert forall v :: v in h.wire + h.landed ==> v == w || v in g.wire + g.landed;
    }
  }

  lemma RefuseKeepsProc(g: Global, w: Write, pr: Proc)
    requires ProcHolds(g, pr) && (pr.phase.Idle? || pr.call != w.call)
    ensures ProcHolds(Refused(g, w), pr)
  {
    var h := Refused(g, w);
    SameCall(g, h, pr);
    match pr.phase
    case Drafted(obs, e) => SameDraft(g, h, obs, e);
    case Packed(obs, e) => SameArmed(g, h, obs, e);
    case _ =>
  }

  /** A write in flight has not landed, and after its refusal its call is untouched. */
  lemma RefusedIsGone(g: Global, w: Write)
    requires WritesHold(g) && AllLandedHold(g) && OncePerCall(g) && w in g.wire
    ensures w !in g.landed
    ensures !w.edit.Prefix? ==> Untouched(Refused(g, w), w.call)
  {
    assert WriteHolds(g, w);
    assert Fresh(w.edit) != {};
    assert w in g.landed ==> LandedHolds(g, w);
    var h := Refused(g, w);
    forall v | v in h.wire + h.landed ensures v.edit.Prefix? || w.edit.Prefix? || v.call != w.call {
      assert v in g.wire + g.landed && w in g.wire + g.landed && v != w;
      assert AtMostOnce(v, w);
    }
  }

  // ---- Landing a write ----

  ghost predicate Lands(g: Global, w: Write, wrapper: nat, h: Global)
  {
    && w in g.wire && g.current == w.obs && WellMade(w) && h == LandWrite(g, w, wrapper)
    && WriteHolds(g, w)
  }

  /** The landing write derives a good manifest with larger generation and no smaller cutoff. */
  lemma LandFacts(g: Global, w: Write, wrapper: nat, h: Global)
    requires Lands(g, w, wrapper, h) && LinksHold(g) && EntriesHold(g)
    ensures GoodOption(Seen(w.obs)) && IdsOf(Seen(w.obs)) <= g.accepted
    ensures Current(h) == Some(NextOf(w))
    ensures NextOf(w).generation == |g.log| + 1
    ensures ThroughOf(Current(g)) <= NextOf(w).checkpoint.through
    ensures !w.edit.Append? ==> NextOf(w).checkpoint.through == KeyOf(w).generation
    ensures Good(NextOf(w)) && Ids(NextOf(w)) <= h.accepted
  {
    KnownIsGood(g, w.obs);
    BuildAdvances(Seen(w.obs), w.edit);
    BuildGood(Seen(w.obs), w.edit);
    BuildNames(Seen(w.obs), w.edit);
  }

  lemma LandKeepsLinks(g: Global, w: Write, wrapper: nat, h: Global)
    requires Lands(g, w, wrapper, h) && LinksHold(g) && NextOf(w).generation == |g.log| + 1
    ensures LinksHold(h)
  {
    forall i | 0 <= i < |h.log| ensures LinkHolds(h, i) {
      if i < |g.log| {
        assert LinkHolds(g, i);
        assert Before(h.log, i) == Before(g.log, i);
      } else {
        assert Before(h.log, i) == Current(g);
      }
    }
  }

  lemma EntryMoves(g: Global, h: Global, m: Manifest)
    requires EntryHolds(g, m) && g.accepted <= h.accepted && |g.log| <= |h.log|
    requires ThroughOf(Current(g)) <= ThroughOf(Current(h))
    ensures EntryHolds(h, m)
  {
  }

  lemma LandKeepsEntries(g: Global, h: Global, next: Manifest)
    requires EntriesHold(g) && h.log == g.log + [next] && g.accepted <= h.accepted
    requires ThroughOf(Current(g)) <= ThroughOf(Current(h)) && Current(h) == Some(next)
    requires Good(next) && Ids(next) <= h.accepted && next.generation == |g.log| + 1
    ensures EntriesHold(h)
  {
    forall m | Known(h, m) ensures EntryHolds(h, m) {
      if m != next {
        assert m in g.log;
        assert Known(g, m);
        EntryMoves(g, h, m);
      }
    }
  }

  /** The selected prefix of a known plan does not reappear when a write lands. */
  lemma LandKeepsPrefixes(g: Global, w: Write, wrapper: nat, h: Global, plan: Plan)
    requires Lands(g, w, wrapper, h) && LinksHold(g) && EntriesHold(g)
    requires plan.Ok() && Known(g, plan.manifest)
    ensures plan.PrefixPresent(NextOf(w)) ==> g.current.Some? && plan.PrefixPresent(g.current.value.manifest)
  {
    KnownIsGood(g, w.obs);
    assert EntryHolds(g, plan.manifest);
    if plan.PrefixPresent(NextOf(w)) { PrefixStays(Seen(w.obs), w.edit, plan); }
  }

  lemma LandKeepsKnown(g: Global, w: Write, wrapper: nat, h: Global, obs: Option<Object>)
    requires WellMade(w) && h == LandWrite(g, w, wrapper) && KnownOption(g, obs)
    ensures KnownOption(h, obs)
  {
  }

  lemma LandKeepsDraft(g: Global, w: Write, wrapper: nat, h: Global, obs: Option<Object>, e: Edit)
    requires WellMade(w) && h == LandWrite(g, w, wrapper)
    requires DraftHolds(g, obs, e) && Fresh(e) !! Fresh(w.edit)
    ensures DraftHolds(h, obs, e)
  {
    assert h.accepted == g.accepted + Fresh(w.edit);
    if e.Prefix? { assert Known(h, e.plan.manifest); }
  }

  /** What the landing of one write leaves true of an edit that is still pending. */
  lemma LandKeepsArmed(g: Global, w: Write, wrapper: nat, h: Global, obs: Option<Object>, e: Edit)
    requires Lands(g, w, wrapper, h) && LinksHold(g) && EntriesHold(g)
    requires ArmedHolds(g, obs, e) && Fresh(e) !! Fresh(w.edit)
    ensures ArmedHolds(h, obs, e)
  {
    LandKeepsDraft(g, w, wrapper, h, obs, e);
    LandEndsViability(g, w, wrapper, h, obs, e);
  }

  /** After a landing only compactions of a prefix that stayed in place remain viable. */
  lemma LandEndsViability(g: Global, w: Write, wrapper: nat, h: Global, obs: Option<Object>, e: Edit)
    requires Lands(g, w, wrapper, h) && LinksHold(g) && EntriesHold(g) && DraftHolds(g, obs, e)
    ensures StillViable(h, obs, e) ==> StillViable(g, obs, e)
  {
    LandGenerations(g, w, wrapper, h, obs);
    if e.Prefix? { LandEndsPrefix(g, w, wrapper, h, obs, e); } else { LandEndsPublication(g, h, obs, e); }
  }

  lemma LandGenerations(g: Global, w: Write, wrapper: nat, h: Global, obs: Option<Object>)
    requires Lands(g, w, wrapper, h) && LinksHold(g) && EntriesHold(g) && KnownOption(g, obs)
    ensures WellMade(w) && Current(h) == Some(NextOf(w))
    ensures Generation(Seen(obs)) <= |g.log| && Generation(Current(h)) == |g.log| + 1
  {
    LandFacts(g, w, wrapper, h);
    KnownIsGood(g, obs);
  }

  lemma LandEndsPrefix(g: Global, w: Write, wrapper: nat, h: Global, obs: Option<Object>, e: Edit)
    requires Lands(g, w, wrapper, h) && LinksHold(g) && EntriesHold(g) && Current(h) == Some(NextOf(w))
    requires e.Prefix? && e.plan.Ok() && Known(g, e.plan.manifest)
    ensures StillViable(h, obs, e) ==> StillViable(g, obs, e)
  {
    LandKeepsPrefixes(g, w, wrapper, h, e.plan);
  }

  /** A publication drafted before the landing observed an older generation. */
  lemma LandEndsPublication(g: Global, h: Global, obs: Option<Object>, e: Edit)
    requires !e.Prefix? && Generation(Seen(obs)) <= |g.log| && Generation(Current(h)) == |g.log| + 1
    ensures !StillViable(h, obs, e)
  {
  }

  lemma LandKeepsWrites(g: Global, w: Write, wrapper: nat, h: Global)
    requires Lands(g, w, wrapper, h) && LinksHold(g) && EntriesHold(g) && WritesHold(g) && WiresApart(g)
    ensures WritesHold(h) && WiresApart(h)
  {
    forall v | v in h.wire ensures WriteHolds(h, v) {
      assert WriteHolds(g, v) && Distinct(v, w);
      LandKeepsArmed(g, w, wrapper, h, v.obs, v.edit);
    }
  }

  lemma LandKeepsLanded(g: Global, w: Write, wrapper: nat, h: Global)
    requires Lands(g, w, wrapper, h) && AllLandedHold(g)
    requires ThroughOf(Current(g)) <= ThroughOf(Current(h)) && Current(h) == Some(NextOf(w))
    requires !w.edit.Append? ==> NextOf(w).checkpoint.through == KeyOf(w).generation
    ensures AllLandedHold(h)
  {
    forall v | v in h.landed ensures LandedHolds(h, v) {
      if v in g.landed { assert LandedHolds(g, v); }
    }
  }

  lemma LandKeepsOnce(g: Global, w: Write, wrapper: nat, h: Global)
    requires w in g.wire && h.wire == g.wire - {w} && h.landed == g.landed + {w} && OncePerCall(g)
    ensures OncePerCall(h)
  {
    assert h.wire + h.landed == g.wire + g.landed;
  }

  lemma LandKeepsRoots(g: Global, w: Write, wrapper: nat, h: Global)
    requires Lands(g, w, wrapper, h) && RootsStored(g)
    ensures RootsStored(h)
  {
    BuildNames(Seen(w.obs), w.edit);
    assert StillViable(g, w.obs, w.edit);
  }

  /** The one new key of the landing manifest is not doomed: it lies above the cutoff, and its identifier
      was not given up. */
  lemma LandSparesDeletable(g: Global, w: Write, wrapper: nat, h: Global)
    requires Lands(g, w, wrapper, h) && GoodOption(Seen(w.obs)) && DoomedDeletable(g) && g.dropped !! Fresh(w.edit)
    requires ThroughOf(Current(g)) <= ThroughOf(Current(h))
    ensures DoomedDeletable(h)
  {
    BuildNames(Seen(w.obs), w.edit);
    PackKeyAbove(Seen(w.obs), w.edit);
    forall k | k in h.doomed ensures Deletable(h, k) { assert Deletable(g, k); }
  }

  lemma LandKeepsDropped(g: Global, w: Write, wrapper: nat, h: Global)
    requires Lands(g, w, wrapper, h) && DroppedApart(g)
    ensures DroppedApart(h)
  {
    assert h.accepted == g.accepted + Fresh(w.edit);
  }

  lemma LandKeepsGlobal(g: Global, w: Write, wrapper: nat, h: Global)
    requires Lands(g, w, wrapper, h) && GlobalHolds(g)
    ensures GlobalHolds(h)
  {
    LandFacts(g, w, wrapper, h);
    LandKeepsLinks(g, w, wrapper, h);
    LandKeepsEntries(g, h, NextOf(w));
    LandKeepsWrites(g, w, wrapper, h);
    LandKeepsLanded(g, w, wrapper, h);
    LandKeepsOnce(g, w, wrapper, h);
    LandKeepsRoots(g, w, wrapper, h);
    LandSparesDeletable(g, w, wrapper, h);
    LandKeepsDropped(g, w, wrapper, h);
  }

  /** No doomed key is referenced by the manifest that lands: its one new key lies above the cutoff. */
  lemma LandSparesDoomed(g: Global, w: Write, wrapper: nat, h: Global, cutoff: nat, keys: set<Key>)
    requires Lands(g, w, wrapper, h) && GoodOption(Seen(w.obs)) && DoomedHolds(g, cutoff, keys)
    requires ThroughOf(Current(g)) <= ThroughOf(Current(h))
    ensures DoomedHolds(h, cutoff, keys)
  {
    BuildNames(Seen(w.obs), w.edit);
    PackKeyAbove(Seen(w.obs), w.edit);
  }

  lemma LandKeepsPlan(g: Global, w: Write, wrapper: nat, h: Global, plan: Plan, cpId: Uuid, size: nat)
    requires WellMade(w) && h == LandWrite(g, w, wrapper) && PlanHolds(g, plan, cpId, size) && cpId !in Fresh(w.edit)
    ensures PlanHolds(h, plan, cpId, size)
  {
    assert h.accepted == g.accepted + Fresh(w.edit);
    assert Known(h, plan.manifest);
  }

  lemma LandKeepsDoomed(g: Global, w: Write, wrapper: nat, h: Global, cutoff: nat, keys: set<Key>)
    requires Lands(g, w, wrapper, h) && LinksHold(g) && EntriesHold(g) && DoomedHolds(g, cutoff, keys)
    ensures DoomedHolds(h, cutoff, keys)
  {
    LandFacts(g, w, wrapper, h);
    LandSparesDoomed(g, w, wrapper, h, cutoff, keys);
  }

  lemma LandKeepsPlanArmed(g: Global, w: Write, wrapper: nat, h: Global, plan: Plan, cpId: Uuid, size: nat)
    requires Lands(g, w, wrapper, h) && LinksHold(g) && EntriesHold(g)
    requires PlanArmed(g, plan, cpId, size) && cpId !in Fresh(w.edit)
    ensures PlanArmed(h, plan, cpId, size)
  {
    LandKeepsPlan(g, w, wrapper, h, plan, cpId, size);
    LandKeepsPrefixes(g, w, wrapper, h, plan);
  }

  /** Phases whose claims only the history can affect. */
  predicate Passive(ph: Phase)
  {
    !(ph.Packed? || ph.PlanPacked? || ph.Sweep? || ph.Doomed?)
  }

  lemma LandKeepsPassive(g: Global, w: Write, wrapper: nat, h: Global, ph: Phase)
    requires WellMade(w) && h == LandWrite(g, w, wrapper) && Passive(ph)
    requires PhaseHolds(g, ph) && Held(ph) !! Fresh(w.edit)
    ensures PhaseHolds(h, ph)
  {
    match ph
    case Observed(obs) => LandKeepsKnown(g, w, wrapper, h, obs);
    case Drafted(obs, e) => LandKeepsDraft(g, w, wrapper, h, obs, e);
    case PlanDrafted(plan, cpId, size) => LandKeepsPlan(g, w, wrapper, h, plan, cpId, size);
    case _ =>
  }

  lemma LandKeepsPhase(g: Global, w: Write, wrapper: nat, h: Global, ph: Phase)
    requires Lands(g, w, wrapper, h) && LinksHold(g) && EntriesHold(g) && PhaseHolds(g, ph) && Held(ph) !! Fresh(w.edit)
    ensures PhaseHolds(h, ph)
  {
    if ph.Packed? {
      LandKeepsArmed(g, w, wrapper, h, ph.obs, ph.edit);
    } else if ph.PlanPacked? {
      LandKeepsPlanArmed(g, w, wrapper, h, ph.plan, ph.cpId, ph.size);
    } else if ph.Sweep? || ph.Doomed? {
      LandKeepsDoomed(g, w, wrapper, h, ph.cutoff, if ph.Doomed? then ph.keys else {});
    } else {
      LandKeepsPassive(g, w, wrapper, h, ph);
    }
  }

  lemma LandKeepsCall(g: Global, w: Write, wrapper: nat, h: Global, pr: Proc)
    requires w in g.wire && h.wire == g.wire - {w} && h.landed == g.landed + {w} && h.used == g.used
    requires CallHolds(g, pr)
    ensures CallHolds(h, pr)
  {
    assert h.wire + h.landed == g.wire + g.landed;
    assert Accepted(g, pr.call) ==> Accepted(h, pr.call);
    assert Untouched(g, pr.call) ==> Untouched(h, pr.call);
  }

  lemma LandKeepsProc(g: Global, w: Write, wrapper: nat, h: Global, pr: Proc)
    requires Lands(g, w, wrapper, h) && LinksHold(g) && EntriesHold(g) && ProcHolds(g, pr)
    ensures ProcHolds(h, pr)
  {
    LandKeepsPhase(g, w, wrapper, h, pr.phase);
    LandKeepsCall(g, w, wrapper, h, pr);
  }
}
