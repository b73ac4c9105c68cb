/** Every step of every process keeps the protocol invariant. */
module PublicationRuns {
  import opened Manifest
  import opened Merging
  import opened Publication
  import opened PublicationSafety

  // ---- Facts about one process ----

  lemma HeldIsDrawn(g: Global, ph: Phase)
    requires PhaseHolds(g, ph)
    ensures Held(ph) <= g.used && Held(ph) !! g.accepted
  {
  }

  lemma WriteIsDrawn(g: Global, w: Write)
    requires WritesHold(g) && w in g.wire
    ensures Fresh(w.edit) <= g.used && w.call in g.used
  {
    assert WriteHolds(g, w);
  }

  /** Identifiers nobody drew are apart from everything in flight or in hand. */
  lemma NewIsApart(g: Global, ids: set<Uuid>, was: Phase, ph: Phase)
    requires WritesHold(g) && g.dropped <= g.used && HeldApart(g, was) && Held(ph) <= Held(was) + ids && ids !! g.used
    ensures HeldApart(g, ph)
  {
    forall w | w in g.wire ensures Held(ph) !! Fresh(w.edit) { WriteIsDrawn(g, w); }
  }

  lemma NewCallIsUntouched(g: Global, call: Uuid)
    requires WritesHold(g) && AllLandedHold(g) && call !in g.used
    ensures Untouched(g, call)
  {
    forall w | w in g.wire + g.landed ensures w.call != call {
      if w in g.wire { WriteIsDrawn(g, w); } else { assert LandedHolds(g, w); }
    }
  }

  lemma LandedCutoff(g: Global, w: Write)
    requires LinksHold(g) && AllLandedHold(g) && w in g.landed && !w.edit.Append?
    ensures WellMade(w) && CutoffHolds(g, KeyOf(w).generation)
  {
    assert LandedHolds(g, w);
    assert g.log != [];
  }

  /** A publication or checkpoint found in the current manifest was accepted. */
  lemma FoundIsLanded(g: Global, w: Write)
    requires LinksHold(g) && EntriesHold(g) && WritesHold(g) && InFlight(g, w) && g.current.Some?
    requires if w.edit.Prefix? then CheckpointIn(g.current.value.manifest, w.edit.cpId)
             else PublicationIn(g.current.value.manifest, w.edit.publication)
    ensures w in g.landed
  {
    var m := g.current.value.manifest;
    CurrentIsKnown(g);
    KnownIsGood(g, g.current);
    var id := if w.edit.Prefix? then w.edit.cpId else w.edit.publication;
    assert id in Ids(m) by {
      if w.edit.Prefix? { CheckpointIdsInIds(m, id); } else { PublicationsInIds(m, id); }
    }
    assert id in Fresh(w.edit);
    assert w in g.wire ==> WriteHolds(g, w);
  }

  lemma RootIdsAccepted(g: Global, k: Key)
    requires LinksHold(g) && EntriesHold(g) && k in RootsOf(Current(g))
    ensures k.id in g.accepted
  {
    CurrentIsKnown(g);
    KnownIsGood(g, g.current);
    KeyIdsInIds(g.current.value.manifest, k);
  }

  // ---- The process that steps ----

  lemma StepBegin(g: Global, pr: Proc, call: Uuid, limit: nat, input: Input)
    requires WritesHold(g) && AllLandedHold(g) && ProcHolds(g, pr) && Enabled(g, pr, Begin(call, limit, input))
    ensures ProcHolds(StepGlobal(g, pr, Begin(call, limit, input)), StepProc(g, pr, Begin(call, limit, input)))
  {
    NewCallIsUntouched(g, call);
    SameCall(g, StepGlobal(g, pr, Begin(call, limit, input)), pr);
    var h := StepGlobal(g, pr, Begin(call, limit, input));
    assert h.wire == g.wire && h.landed == g.landed;
  }

  lemma StepPropose(g: Global, pr: Proc, e: Edit, tree: Files)
    requires WritesHold(g) && g.accepted <= g.used && g.dropped <= g.used && ProcHolds(g, pr)
    requires Enabled(g, pr, Propose(e, tree))
    ensures ProcHolds(StepGlobal(g, pr, Propose(e, tree)), StepProc(g, pr, Propose(e, tree)))
  {
    var h := StepGlobal(g, pr, Propose(e, tree));
    NewIsApart(g, Fresh(e), pr.phase, Drafted(pr.phase.obs, e));
    assert DraftHolds(h, pr.phase.obs, e);
    assert Untouched(h, pr.call);
  }

  lemma StepQuota(g: Global, pr: Proc, cpId: Uuid, size: nat)
    requires WritesHold(g) && g.accepted <= g.used && g.dropped <= g.used && ProcHolds(g, pr)
    requires Enabled(g, pr, QuotaRefused(cpId, size))
    ensures ProcHolds(StepGlobal(g, pr, QuotaRefused(cpId, size)), StepProc(g, pr, QuotaRefused(cpId, size)))
  {
    var step := QuotaRefused(cpId, size);
    var h, ph := StepGlobal(g, pr, step), StepProc(g, pr, step).phase;
    NewIsApart(g, {cpId}, pr.phase, ph);
    assert DraftHolds(h, ph.obs, ph.edit);
    assert Untouched(h, pr.call);
  }

  lemma StepUpload(g: Global, pr: Proc, ok: bool)
    requires ProcHolds(g, pr) && Enabled(g, pr, Upload(ok))
    ensures ProcHolds(StepGlobal(g, pr, Upload(ok)), StepProc(g, pr, Upload(ok)))
  {
    var h := StepGlobal(g, pr, Upload(ok));
    SameDraft(g, h, pr.phase.obs, pr.phase.edit);
    SameCall(g, h, pr);
  }

  lemma StepSend(g: Global, pr: Proc)
    requires ProcHolds(g, pr) && Enabled(g, pr, Send)
    ensures ProcHolds(StepGlobal(g, pr, Send), StepProc(g, pr, Send))
  {
    var h := StepGlobal(g, pr, Send);
    assert Accepted(g, pr.call) ==> Accepted(h, pr.call);
  }

  lemma StepAcknowledge(g: Global, pr: Proc)
    requires LinksHold(g) && AllLandedHold(g) && ProcHolds(g, pr) && Enabled(g, pr, Acknowledge)
    ensures ProcHolds(g, StepProc(g, pr, Acknowledge))
  {
    var w := pr.phase.w;
    if w.edit.Prefix? { LandedCutoff(g, w); }
  }

  /** What the lost-response lookup finds. */
  ghost predicate Found(g: Global, w: Write)
  {
    && g.current.Some?
    && if w.edit.Prefix? then CheckpointIn(g.current.value.manifest, w.edit.cpId)
       else PublicationIn(g.current.value.manifest, w.edit.publication)
  }

  lemma StepLookUp(g: Global, pr: Proc)
    requires LinksHold(g) && EntriesHold(g) && WritesHold(g) && AllLandedHold(g) && ProcHolds(g, pr)
    requires Enabled(g, pr, LookUp)
    ensures ProcHolds(g, StepProc(g, pr, LookUp))
  {
    var w := pr.phase.w;
    if Found(g, w) { FoundIsLanded(g, w); }
    LookUpResolves(g, pr);
  }

  lemma LookUpResolves(g: Global, pr: Proc)
    requires LinksHold(g) && AllLandedHold(g) && ProcHolds(g, pr) && pr.phase.Lost?
    requires Found(g, pr.phase.w) ==> pr.phase.w in g.landed
    ensures ProcHolds(g, StepProc(g, pr, LookUp))
  {
    var w := pr.phase.w;
    if w.edit.Prefix? && Found(g, w) { LandedCutoff(g, w); }
  }

  /** A refused compaction keeps its pack for the next attempt; a refused quota checkpoint is
      discarded; any other refused publication retries or fails. */
  lemma StepReject(g: Global, pr: Proc, lostRace: bool)
    requires WritesHold(g) && AllLandedHold(g) && OncePerCall(g) && WiresApart(g) && DroppedApart(g)
    requires ProcHolds(g, pr) && Enabled(g, pr, Reject(lostRace))
    ensures ProcHolds(Refused(g, pr.phase.w), StepProc(g, pr, Reject(lostRace)))
  {
    var w := pr.phase.w;
    assert WriteHolds(g, w);
    if w.edit.Prefix? {
      RejectPrefix(g, pr, w, lostRace);
    } else {
      RefusedIsGone(g, w);
      RejectPublication(g, pr, w, lostRace);
    }
  }

  lemma RejectPrefix(g: Global, pr: Proc, w: Write, lostRace: bool)
    requires WiresApart(g) && DroppedApart(g) && WriteHolds(g, w) && w in g.wire && w.edit.Prefix?
    requires pr.phase == Waiting(w) && ProcHolds(g, pr)
    ensures ProcHolds(Refused(g, w), StepProc(g, pr, Reject(lostRace)))
  {
    var h, after := Refused(g, w), StepProc(g, pr, Reject(lostRace));
    RejectedIdsApart(g, w, after.phase);
    assert Accepted(h, pr.call);
  }

  lemma RejectPublication(g: Global, pr: Proc, w: Write, lostRace: bool)
    requires WiresApart(g) && DroppedApart(g) && WriteHolds(g, w) && w in g.wire && !w.edit.Prefix?
    requires pr.phase == Waiting(w) && ProcHolds(g, pr) && Untouched(Refused(g, w), w.call)
    ensures ProcHolds(Refused(g, w), StepProc(g, pr, Reject(lostRace)))
  {
    PackKeyDrawn(Seen(w.obs), w.edit);
    RejectedIdsApart(g, w, StepProc(g, pr, Reject(lostRace)).phase);
  }

  lemma RejectedIdsApart(g: Global, w: Write, ph: Phase)
    requires WiresApart(g) && DroppedApart(g) && w in g.wire && Held(ph) <= Fresh(w.edit)
    ensures HeldApart(Refused(g, w), ph)
  {
    forall v | v in Refused(g, w).wire ensures Held(ph) !! Fresh(v.edit) {
      assert Distinct(w, v);
    }
  }

  lemma StepDiscarded(g: Global, pr: Proc)
    requires ProcHolds(g, pr) && Enabled(g, pr, DeleteDiscarded)
    ensures ProcHolds(StepGlobal(g, pr, DeleteDiscarded), StepProc(g, pr, DeleteDiscarded))
  {
    var h := StepGlobal(g, pr, DeleteDiscarded);
    assert h.wire == g.wire && h.landed == g.landed;
    SameCall(g, h, pr);
  }

  lemma StepStartPlan(g: Global, pr: Proc, threshold: nat, cpId: Uuid, size: nat)
    requires WritesHold(g) && AllLandedHold(g) && g.accepted <= g.used && g.dropped <= g.used
    requires ProcHolds(g, pr) && Enabled(g, pr, StartPlan(threshold, cpId, size))
    ensures ProcHolds(StepGlobal(g, pr, StartPlan(threshold, cpId, size)),
      StepProc(g, pr, StartPlan(threshold, cpId, size)))
  {
    var step := StartPlan(threshold, cpId, size);
    var h, after := StepGlobal(g, pr, step), StepProc(g, pr, step);
    assert LandedHolds(g, pr.phase.w);
    NewIsApart(g, {cpId}, pr.phase, after.phase);
    assert PlanHolds(h, after.phase.plan, cpId, size);
    assert Accepted(h, pr.call);
  }

  lemma StepUploadPlan(g: Global, pr: Proc, ok: bool)
    requires ProcHolds(g, pr) && Enabled(g, pr, UploadPlan(ok))
    ensures ProcHolds(StepGlobal(g, pr, UploadPlan(ok)), StepProc(g, pr, UploadPlan(ok)))
  {
    var h := StepGlobal(g, pr, UploadPlan(ok));
    assert h.wire == g.wire && h.landed == g.landed;
    SameCall(g, h, pr);
  }

  lemma StepReadPlan(g: Global, pr: Proc, retain: nat)
    requires LinksHold(g) && ProcHolds(g, pr) && Enabled(g, pr, ReadPlan(retain))
    ensures ProcHolds(g, StepProc(g, pr, ReadPlan(retain)))
  {
    CurrentIsKnown(g);
    var after := StepProc(g, pr, ReadPlan(retain)).phase;
    if after.Packed? { assert ArmedHolds(g, after.obs, after.edit); }
  }

  lemma StepStartSweep(g: Global, pr: Proc)
    requires LinksHold(g) && AllLandedHold(g) && ProcHolds(g, pr) && Enabled(g, pr, StartSweep)
    ensures ProcHolds(g, StepProc(g, pr, StartSweep))
  {
    LandedCutoff(g, pr.phase.w);
  }

  /** The steps of a door rewrite. */
  predicate Doors(step: Step) { step.SendRewrap? || step.LandRewrap? || step.RejectRewrap? }

  lemma StepDoorsGlobal(g: Global, pr: Proc, step: Step)
    requires Enabled(g, pr, step) && Doors(step)
    ensures var h := StepGlobal(g, pr, step); SameHistory(g, h) && h.packs == g.packs && h.wire == g.wire
  {
  }

  lemma StepDoors(g: Global, pr: Proc, step: Step)
    requires ProcHolds(g, pr) && Enabled(g, pr, step) && Doors(step)
    ensures ProcHolds(StepGlobal(g, pr, step), StepProc(g, pr, step))
  {
    var h := StepGlobal(g, pr, step);
    StepDoorsGlobal(g, pr, step);
    if step.LandRewrap? { SameProc(g, h, pr); } else { SameCall(g, h, pr); }
  }

  /** Steps that touch nothing shared. */
  predicate Quiet(step: Step)
  {
    || step.ReadCurrent? || step.EndUnpublished? || step.Acknowledge? || step.LoseResponse? || step.LookUp?
    || step.ReadPlan? || step.StartSweep? || step.RereadRoots? || step.NextBatch? || step.EngineFault?
    || step.Conclude? || step.Crash? || step.AnswerRewrap? || step.LoseRewrap?
  }

  lemma StepPlain(g: Global, pr: Proc, step: Step)
    requires LinksHold(g) && ProcHolds(g, pr) && Enabled(g, pr, step)
    requires step.ReadCurrent? || step.EndUnpublished? || step.LoseResponse? || step.EngineFault?
    ensures ProcHolds(g, StepProc(g, pr, step))
  {
    if step.ReadCurrent? { CurrentIsKnown(g); }
  }

  lemma StepClosing(g: Global, pr: Proc, step: Step)
    requires ProcHolds(g, pr) && Enabled(g, pr, step)
    requires step.RereadRoots? || step.NextBatch? || step.Conclude? || step.Crash? || step.AnswerRewrap? ||
      step.LoseRewrap?
    ensures ProcHolds(g, StepProc(g, pr, step))
  {
    if step.Conclude? { StepConclude(g, pr); }
  }

  lemma StepConclude(g: Global, pr: Proc)
    requires ProcHolds(g, pr) && Enabled(g, pr, Conclude)
    ensures ProcHolds(g, StepProc(g, pr, Conclude))
  {
  }

  lemma QuietGlobal(g: Global, pr: Proc, step: Step)
    requires Enabled(g, pr, step) && Quiet(step)
    ensures StepGlobal(g, pr, step) == g
  {
  }

  lemma QuietKeepsMe(g: Global, pr: Proc, step: Step)
    requires GlobalHolds(g) && ProcHolds(g, pr) && Enabled(g, pr, step) && Quiet(step)
    ensures ProcHolds(StepGlobal(g, pr, step), StepProc(g, pr, step))
  {
    QuietProc(g, pr, step);
    var h, after := StepGlobal(g, pr, step), StepProc(g, pr, step);
    assert h == g by { QuietGlobal(g, pr, step); }
    assert ProcHolds(h, after);
  }

  lemma QuietProc(g: Global, pr: Proc, step: Step)
    requires GlobalHolds(g) && ProcHolds(g, pr) && Enabled(g, pr, step) && Quiet(step)
    ensures ProcHolds(g, StepProc(g, pr, step))
  {
    if step.Acknowledge? { StepAcknowledge(g, pr); }
    else if step.LookUp? { StepLookUp(g, pr); }
    else if step.ReadPlan? { StepReadPlan(g, pr, step.retain); }
    else if step.StartSweep? { StepStartSweep(g, pr); }
    else if step.ReadCurrent? || step.EndUnpublished? || step.LoseResponse? || step.EngineFault? {
      StepPlain(g, pr, step);
    } else {
      StepClosing(g, pr, step);
    }
  }

  /** Steps that draw identifiers, store packs or rewrap the doors. */
  predicate Additive(step: Step)
  {
    || step.Begin? || step.Propose? || step.QuotaRefused? || step.Upload? || step.StartPlan? || step.UploadPlan?
    || Doors(step)
  }

  lemma AdditiveGlobal(g: Global, pr: Proc, step: Step)
    requires ProcHolds(g, pr) && Enabled(g, pr, step) && Additive(step)
    ensures var h := StepGlobal(g, pr, step);
            SameHistory(g, h) && g.packs <= h.packs && h.wire == g.wire && h.doomed == g.doomed &&
            h.dropped == g.dropped
  {
    if Doors(step) { StepDoorsGlobal(g, pr, step); }
  }

  lemma AdditiveProc(g: Global, pr: Proc, step: Step)
    requires GlobalHolds(g) && ProcHolds(g, pr) && Enabled(g, pr, step) && Additive(step)
    ensures ProcHolds(StepGlobal(g, pr, step), StepProc(g, pr, step))
  {
    assert g.accepted <= g.used && g.dropped <= g.used;
    if step.Begin? { StepBegin(g, pr, step.call, step.limit, step.input); }
    else if step.Propose? { StepPropose(g, pr, step.edit, step.tree); }
    else if step.QuotaRefused? { StepQuota(g, pr, step.cpId, step.size); }
    else if step.Upload? { StepUpload(g, pr, step.ok); }
    else if step.StartPlan? { StepStartPlan(g, pr, step.threshold, step.cpId, step.size); }
    else if step.UploadPlan? { StepUploadPlan(g, pr, step.ok); }
    else { StepDoors(g, pr, step); }
  }

  /** Steps that send a delete request. */
  predicate Dooming(step: Step) { step.DeleteBatch? || step.DeleteDiscarded? }

  function DoomedBy(pr: Proc, step: Step): set<Key>
    requires Dooming(step) && (step.DeleteDiscarded? ==> pr.phase.Discard?)
  {
    if step.DeleteBatch? then step.keys else {pr.phase.key}
  }

  function GivenUp(pr: Proc, step: Step): set<Uuid>
    requires Dooming(step) && (step.DeleteDiscarded? ==> pr.phase.Discard?)
  {
    if step.DeleteBatch? then {} else {pr.phase.key.id}
  }

  /** The cutoff or the identifier given up makes each key of the request deletable. */
  lemma DoomingGlobal(g: Global, pr: Proc, step: Step)
    requires LinksHold(g) && EntriesHold(g) && ProcHolds(g, pr) && Enabled(g, pr, step) && Dooming(step)
    ensures Dooms(g, StepGlobal(g, pr, step), DoomedBy(pr, step), GivenUp(pr, step))
    ensures GivenUp(pr, step) <= Held(pr.phase)
  {
    if step.DeleteDiscarded? { DiscardDooms(g, pr); } else { BatchDooms(g, pr, step.keys); }
  }

  lemma DiscardDooms(g: Global, pr: Proc)
    requires LinksHold(g) && EntriesHold(g) && PhaseHolds(g, pr.phase) && pr.phase.Discard?
    ensures Dooms(g, StepGlobal(g, pr, DeleteDiscarded), {pr.phase.key}, {pr.phase.key.id})
  {
    if pr.phase.key in RootsOf(Current(g)) { RootIdsAccepted(g, pr.phase.key); }
  }

  lemma BatchDooms(g: Global, pr: Proc, keys: set<Key>)
    requires PhaseHolds(g, pr.phase) && Enabled(g, pr, DeleteBatch(keys))
    ensures Dooms(g, StepGlobal(g, pr, DeleteBatch(keys)), keys, {})
  {
  }

  lemma LandDeleteGlobal(g: Global, pr: Proc, keys: set<Key>)
    requires DoomedDeletable(g) && Enabled(g, pr, LandDelete(keys))
    ensures Deletes(g, StepGlobal(g, pr, LandDelete(keys)), keys)
  {
  }

  /** Every step is of one of these kinds. */
  lemma Kinds(step: Step)
    ensures Quiet(step) || Additive(step) || Dooming(step) || step.LandDelete? || step.Send? || step.Reject? ||
      step.Land?
  {
  }

  lemma StepKeepsGlobal(g: Global, pr: Proc, step: Step)
    requires GlobalHolds(g) && ProcHolds(g, pr) && Enabled(g, pr, step)
    ensures GlobalHolds(StepGlobal(g, pr, step))
  {
    var h := StepGlobal(g, pr, step);
    Kinds(step);
    if Additive(step) {
      AdditiveGlobal(g, pr, step);
      SameGlobal(g, h);
    } else if Dooming(step) {
      DoomingGlobal(g, pr, step);
      HeldIsDrawn(g, pr.phase);
      DoomKeepsGlobal(g, h, DoomedBy(pr, step), GivenUp(pr, step));
    } else if step.LandDelete? {
      LandDeleteGlobal(g, pr, step.keys);
      DeleteKeepsGlobal(g, h, step.keys);
    } else if step.Send? {
      SendKeepsGlobal(g, Write(pr.phase.obs, pr.phase.edit, pr.call));
    } else if step.Reject? {
      SameGlobal(g, h);
    } else if step.Land? {
      assert WriteHolds(g, step.w);
      LandKeepsGlobal(g, step.w, step.wrapper, h);
    }
  }

  lemma BatchProc(g: Global, pr: Proc, keys: set<Key>)
    requires LinksHold(g) && EntriesHold(g) && ProcHolds(g, pr) && Enabled(g, pr, DeleteBatch(keys))
    ensures ProcHolds(StepGlobal(g, pr, DeleteBatch(keys)), StepProc(g, pr, DeleteBatch(keys)))
  {
    DoomingGlobal(g, pr, DeleteBatch(keys));
    DoomKeepsProc(g, StepGlobal(g, pr, DeleteBatch(keys)), keys, {}, pr);
  }

  lemma LandDeleteProc(g: Global, pr: Proc, other: Proc, keys: set<Key>)
    requires LinksHold(g) && EntriesHold(g) && DoomedDeletable(g) && ProcHolds(g, other)
    requires Enabled(g, pr, LandDelete(keys))
    ensures ProcHolds(StepGlobal(g, pr, LandDelete(keys)), other)
  {
    LandDeleteGlobal(g, pr, keys);
    DeleteKeepsProc(g, StepGlobal(g, pr, LandDelete(keys)), keys, other);
  }

  lemma LandProc(g: Global, pr: Proc, w: Write, wrapper: nat)
    requires LinksHold(g) && EntriesHold(g) && WritesHold(g) && ProcHolds(g, pr) && Enabled(g, pr, Land(w, wrapper))
    ensures ProcHolds(StepGlobal(g, pr, Land(w, wrapper)), pr)
  {
    assert WriteHolds(g, w);
    LandKeepsProc(g, w, wrapper, StepGlobal(g, pr, Land(w, wrapper)), pr);
  }

  lemma StepKeepsMe(g: Global, pr: Proc, step: Step)
    requires GlobalHolds(g) && ProcHolds(g, pr) && Enabled(g, pr, step)
    ensures ProcHolds(StepGlobal(g, pr, step), StepProc(g, pr, step))
  {
    if Quiet(step) { QuietKeepsMe(g, pr, step); }
    else if Additive(step) { AdditiveProc(g, pr, step); }
    else { StoreProc(g, pr, step); }
  }

  lemma StoreProc(g: Global, pr: Proc, step: Step)
    requires GlobalHolds(g) && ProcHolds(g, pr) && Enabled(g, pr, step) && !Quiet(step) && !Additive(step)
    ensures ProcHolds(StepGlobal(g, pr, step), StepProc(g, pr, step))
  {
    Kinds(step);
    if step.DeleteDiscarded? { StepDiscarded(g, pr); }
    else if step.DeleteBatch? { BatchProc(g, pr, step.keys); }
    else if step.LandDelete? { LandDeleteProc(g, pr, pr, step.keys); }
    else if step.Send? { StepSend(g, pr); }
    else if step.Reject? { StepReject(g, pr, step.lostRace); }
    else { LandProc(g, pr, step.w, step.wrapper); }
  }

  lemma StepKeepsOther(g: Global, pr: Proc, step: Step, other: Proc)
    requires GlobalHolds(g) && ProcHolds(g, pr) && Enabled(g, pr, step)
    requires ProcHolds(g, other) && PairApart(pr, other)
    ensures ProcHolds(StepGlobal(g, pr, step), other)
  {
    var h := StepGlobal(g, pr, step);
    Kinds(step);
    if Additive(step) {
      AdditiveGlobal(g, pr, step);
      SameProc(g, h, other);
    } else if Dooming(step) {
      DoomingGlobal(g, pr, step);
      DoomKeepsProc(g, h, DoomedBy(pr, step), GivenUp(pr, step), other);
    } else if step.LandDelete? {
      LandDeleteProc(g, pr, other, step.keys);
    } else if step.Send? {
      SendKeepsProc(g, Write(pr.phase.obs, pr.phase.edit, pr.call), other);
    } else if step.Reject? {
      RefuseKeepsProc(g, pr.phase.w, other);
    } else if step.Land? {
      assert WriteHolds(g, step.w);
      LandKeepsProc(g, step.w, step.wrapper, h, other);
    }
  }

  /** The identifiers a step draws. */
  function Drawn(step: Step): set<Uuid>
  {
    match step
    case Begin(call, _, _) => {call}
    case Propose(e, _) => Fresh(e)
    case QuotaRefused(cpId, _) => {cpId}
    case StartPlan(_, cpId, _) => {cpId}
    case _ => {}
  }

  lemma StepDrawsUnused(g: Global, pr: Proc, step: Step)
    requires Enabled(g, pr, step)
    ensures Drawn(step) !! g.used
  {
  }

  lemma StepHolds(g: Global, pr: Proc, step: Step)
    requires PhaseHolds(g, pr.phase) && Enabled(g, pr, step)
    ensures Held(StepProc(g, pr, step).phase) <=
            Held(pr.phase) + Drawn(step) + if step.Reject? then Fresh(pr.phase.w.edit) else {}
  {
    if step.Reject? { RejectHolds(g, pr, step.lostRace); }
  }

  lemma RejectHolds(g: Global, pr: Proc, lostRace: bool)
    requires PhaseHolds(g, pr.phase) && Enabled(g, pr, Reject(lostRace))
    ensures Held(StepProc(g, pr, Reject(lostRace)).phase) <= Fresh(pr.phase.w.edit)
  {
    if pr.phase.w.edit.Quota? { PackKeyDrawn(Seen(pr.phase.w.obs), pr.phase.w.edit); }
  }

  lemma StepKeepsApart(g: Global, pr: Proc, step: Step, other: Proc)
    requires ProcHolds(g, pr) && Enabled(g, pr, step)
    requires ProcHolds(g, other) && PairApart(pr, other)
    ensures PairApart(StepProc(g, pr, step), other)
  {
    HeldIsDrawn(g, other.phase);
    StepHolds(g, pr, step);
    StepDrawsUnused(g, pr, step);
    if step.Reject? { assert Held(other.phase) !! Fresh(pr.phase.w.edit); }
  }

  lemma ApartSymmetric(a: Proc, b: Proc)
    requires PairApart(a, b)
    ensures PairApart(b, a)
  {
  }

  /** One step of any process keeps the invariant. */
  lemma StepKeepsInvariant(s: State, p: Pid, step: Step)
    requires Invariant(s) && CanStep(s, p, step)
    ensures Invariant(Apply(s, p, step))
  {
    StepKeepsGlobal(s.g, s.procs[p], step);
    StepKeepsProcs(s, p, step);
    StepKeepsPairs(s, p, step);
  }

  lemma StepKeepsProcs(s: State, p: Pid, step: Step)
    requires Invariant(s) && CanStep(s, p, step)
    ensures var t := Apply(s, p, step); forall q :: q in t.procs ==> ProcHolds(t.g, t.procs[q])
  {
    var t, me := Apply(s, p, step), s.procs[p];
    forall q | q in t.procs ensures ProcHolds(t.g, t.procs[q]) {
      if q == p {
        StepKeepsMe(s.g, me, step);
      } else {
        StepKeepsOther(s.g, me, step, s.procs[q]);
      }
    }
  }

  lemma StepKeepsPairs(s: State, p: Pid, step: Step)
    requires Invariant(s) && CanStep(s, p, step)
    ensures var t := Apply(s, p, step);
            forall q, r :: q in t.procs && r in t.procs && q != r ==> PairApart(t.procs[q], t.procs[r])
  {
    var t, me := Apply(s, p, step), s.procs[p];
    forall q, r | q in t.procs && r in t.procs && q != r ensures PairApart(t.procs[q], t.procs[r]) {
      if q == p {
        StepKeepsApart(s.g, me, step, s.procs[r]);
      } else if r == p {
        StepKeepsApart(s.g, me, step, s.procs[q]);
        ApartSymmetric(t.procs[p], t.procs[q]);
      }
    }
  }
}
