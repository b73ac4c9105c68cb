/** What the accepted commits hold: every publication is a clean merge of its call's local side with
    the state it replaced, so no call publishes a change to a path its policy protects. */
module PublicationTrees {
  import opened Wrappers
  import opened Manifest
  import opened Merging
  import opened Publication
  import opened PublicationSafety
  import opened PublicationRuns
  import opened PublicationTheorems

  // ---- The invariant ----

  ghost predicate HasTree(g: Global, obs: Option<Object>) { obs.Some? ==> obs.value.manifest.head in g.trees }

  /** A pending or accepted edit: its commit's files are a clean merge with the observed state, for a
      call whose policy check passed. */
  ghost predicate EditMerged(g: Global, call: Uuid, obs: Option<Object>, e: Edit)
  {
    && HasTree(g, obs)
    && (!e.Prefix? ==>
          e.head in g.trees && Proposable(g, call, obs, e, g.trees[e.head]) && g.inputs[call].Passed())
  }

  ghost predicate WritesMerged(g: Global)
  {
    forall w :: w in g.wire + g.landed ==> EditMerged(g, w.call, w.obs, w.edit)
  }

  ghost predicate LogHasTrees(g: Global) { forall m :: m in g.log ==> m.head in g.trees }

  ghost predicate TreesHold(g: Global)
  {
    && HasTree(g, g.current) && WritesMerged(g) && LogHasTrees(g)
    && g.inputs.Keys <= g.used && forall call :: call in g.inputs ==> g.inputs[call].Passed()
  }

  ghost predicate PhaseMerged(g: Global, pr: Proc)
  {
    match pr.phase
    case Observed(obs) => HasTree(g, obs)
    case Drafted(obs, e) => EditMerged(g, pr.call, obs, e)
    case Packed(obs, e) => EditMerged(g, pr.call, obs, e)
    case _ => true
  }

  ghost predicate TreeInvariant(s: State)
  {
    TreesHold(s.g) && forall p :: p in s.procs ==> PhaseMerged(s.g, s.procs[p])
  }

  // ---- Growth ----

  /** Files of commits and inputs of calls never change once they are fixed. */
  ghost predicate Grows(g: Global, h: Global)
  {
    && (forall c :: c in g.trees ==> c in h.trees && h.trees[c] == g.trees[c])
    && forall call :: call in g.inputs ==> call in h.inputs && h.inputs[call] == g.inputs[call]
  }

  lemma GrowsKeepsEdit(g: Global, h: Global, call: Uuid, obs: Option<Object>, e: Edit)
    requires Grows(g, h) && EditMerged(g, call, obs, e)
    ensures EditMerged(h, call, obs, e)
  {
    assert ObservedFiles(h, obs) == ObservedFiles(g, obs);
  }

  lemma GrowsKeepsPhase(g: Global, h: Global, pr: Proc)
    requires Grows(g, h) && PhaseMerged(g, pr)
    ensures PhaseMerged(h, pr)
  {
    if pr.phase.Drafted? || pr.phase.Packed? { GrowsKeepsEdit(g, h, pr.call, pr.phase.obs, pr.phase.edit); }
  }

  lemma StepGrows(g: Global, pr: Proc, step: Step)
    requires g.inputs.Keys <= g.used && Enabled(g, pr, step)
    ensures Grows(g, StepGlobal(g, pr, step))
  {
    var h := StepGlobal(g, pr, step);
    if step.Begin? {
      assert h.trees == g.trees && step.call !in g.inputs;
    } else if step.Propose? {
      assert h.inputs == g.inputs && h.trees == g.trees[step.edit.head := step.tree];
    } else {
      assert h.trees == g.trees && h.inputs == g.inputs;
    }
  }

  // ---- One step ----

  /** A built manifest's head: the edit's own, or the observed one after a compaction. */
  lemma BuildHead(obs: Option<Manifest>, e: Edit)
    requires EditOk(obs, e) && GoodOption(obs)
    ensures Build(obs, e).head == if e.Prefix? then obs.value.head else e.head
  {
    if e.Prefix? { CompactActive(obs.value, e.plan, e.cpId, e.retain, e.size); }
  }

  lemma LandedHead(g: Global, w: Write)
    requires LinksHold(g) && EntriesHold(g) && WritesHold(g) && w in g.wire && EditMerged(g, w.call, w.obs, w.edit)
    ensures WellMade(w) && NextOf(w).head in g.trees
  {
    assert WriteHolds(g, w);
    KnownIsGood(g, w.obs);
    BuildHead(Seen(w.obs), w.edit);
  }

  lemma LandKeepsTrees(g: Global, w: Write, wrapper: nat)
    requires TreesHold(g) && w in g.wire && WellMade(w) && NextOf(w).head in g.trees
    ensures TreesHold(LandWrite(g, w, wrapper))
  {
    var h := LandWrite(g, w, wrapper);
    forall v | v in h.wire + h.landed ensures EditMerged(h, v.call, v.obs, v.edit) {
      assert v in g.wire + g.landed;
      GrowsKeepsEdit(g, h, v.call, v.obs, v.edit);
    }
  }

  lemma SendKeepsTrees(g: Global, pr: Proc)
    requires TreesHold(g) && PhaseMerged(g, pr) && pr.phase.Packed?
    ensures TreesHold(StepGlobal(g, pr, Send))
  {
    var h := StepGlobal(g, pr, Send);
    forall v | v in h.wire + h.landed ensures EditMerged(h, v.call, v.obs, v.edit) {
      if v in g.wire + g.landed { GrowsKeepsEdit(g, h, v.call, v.obs, v.edit); }
    }
  }

  /** Steps that neither send nor land a manifest write. */
  lemma OtherKeepsTrees(g: Global, pr: Proc, step: Step)
    requires TreesHold(g) && Enabled(g, pr, step) && !step.Send? && !step.Land?
    ensures TreesHold(StepGlobal(g, pr, step))
  {
    var h := StepGlobal(g, pr, step);
    StepGrows(g, pr, step);
    assert h.wire <= g.wire && h.landed == g.landed && h.log == g.log;
    assert Seen(h.current) == Seen(g.current);
    forall v | v in h.wire + h.landed ensures EditMerged(h, v.call, v.obs, v.edit) {
      assert v in g.wire + g.landed;
      GrowsKeepsEdit(g, h, v.call, v.obs, v.edit);
    }
  }

  lemma StepKeepsTreesHold(g: Global, pr: Proc, step: Step)
    requires GlobalHolds(g) && TreesHold(g) && PhaseMerged(g, pr) && Enabled(g, pr, step)
    ensures TreesHold(StepGlobal(g, pr, step))
  {
    if step.Land? {
      assert step.w in g.wire + g.landed;
      LandedHead(g, step.w);
      LandKeepsTrees(g, step.w, step.wrapper);
    } else if step.Send? {
      SendKeepsTrees(g, pr);
    } else {
      OtherKeepsTrees(g, pr, step);
    }
  }

  lemma ProposeMerges(g: Global, pr: Proc, e: Edit, tree: Files)
    requires TreesHold(g) && PhaseMerged(g, pr) && Enabled(g, pr, Propose(e, tree))
    ensures PhaseMerged(StepGlobal(g, pr, Propose(e, tree)), StepProc(g, pr, Propose(e, tree)))
  {
    var h, obs := StepGlobal(g, pr, Propose(e, tree)), pr.phase.obs;
    assert ObservedFiles(h, obs) == ObservedFiles(g, obs);
  }

  /** The phase after a step of the process itself. */
  lemma StepKeepsMyPhase(g: Global, pr: Proc, step: Step)
    requires TreesHold(g) && PhaseMerged(g, pr) && Enabled(g, pr, step)
    ensures PhaseMerged(StepGlobal(g, pr, step), StepProc(g, pr, step))
  {
    var h, after := StepGlobal(g, pr, step), StepProc(g, pr, step);
    StepGrows(g, pr, step);
    if step.Propose? {
      ProposeMerges(g, pr, step.edit, step.tree);
    } else if after == pr {
      GrowsKeepsPhase(g, h, pr);
    } else if step.QuotaRefused? {
      GrowsKeepsPhase(g, h, pr);
    } else if step.Upload? {
      GrowsKeepsPhase(g, h, pr);
    } else if step.ReadCurrent? || step.ReadPlan? {
      assert h == g;
    }
  }

  lemma StepKeepsTrees(s: State, p: Pid, step: Step)
    requires Invariant(s) && TreeInvariant(s) && CanStep(s, p, step)
    ensures TreeInvariant(Apply(s, p, step))
  {
    var t := Apply(s, p, step);
    StepKeepsTreesHold(s.g, s.procs[p], step);
    StepGrows(s.g, s.procs[p], step);
    forall q | q in t.procs ensures PhaseMerged(t.g, t.procs[q]) {
      if q == p { StepKeepsMyPhase(s.g, s.procs[p], step); } else { GrowsKeepsPhase(s.g, t.g, s.procs[q]); }
    }
  }

  // ---- Every accepted manifest was somebody's write ----

  ghost predicate LandedAt(g: Global, i: nat) { exists w :: w in g.landed && AcceptedAt(g, w, i) }

  ghost predicate LogIsLanded(g: Global) { |g.log| == |g.edits| && forall i :: 0 <= i < |g.log| ==> LandedAt(g, i) }

  lemma StaysLanded(g: Global, h: Global, i: nat)
    requires g.landed <= h.landed && i < |g.log| == |g.edits| && g.log <= h.log && g.edits <= h.edits && LandedAt(g, i)
    ensures LandedAt(h, i)
  {
    var w :| w in g.landed && AcceptedAt(g, w, i);
    assert Before(h.log, i) == Before(g.log, i);
    assert w in h.landed && AcceptedAt(h, w, i);
  }

  lemma LandsSomebodys(g: Global, w: Write, wrapper: nat)
    requires LinksHold(g) && LogIsLanded(g) && WellMade(w) && g.current == w.obs
    ensures LogIsLanded(LandWrite(g, w, wrapper))
  {
    var h := LandWrite(g, w, wrapper);
    forall i | 0 <= i < |h.log| ensures LandedAt(h, i) {
      if i < |g.log| {
        StaysLanded(g, h, i);
      } else {
        assert Before(h.log, i) == Current(g);
        assert w in h.landed && AcceptedAt(h, w, i);
      }
    }
  }

  lemma StepKeepsSomebodys(s: State, p: Pid, step: Step)
    requires Invariant(s) && LogIsLanded(s.g) && CanStep(s, p, step)
    ensures LogIsLanded(Apply(s, p, step).g)
  {
    var g, h := s.g, Apply(s, p, step).g;
    if step.Land? {
      assert WriteHolds(g, step.w);
      LandsSomebodys(g, step.w, step.wrapper);
    } else {
      UnlessLanded(g, s.procs[p], step);
      forall i | 0 <= i < |h.log| ensures LandedAt(h, i) { StaysLanded(g, h, i); }
    }
  }

  /** What every reachable state satisfies here. */
  ghost predicate Accounted(g: Global) { LinksHold(g) && EntriesHold(g) && TreesHold(g) && LogIsLanded(g) }

  lemma {:induction false} RunIsAccounted(s: State, trace: seq<(Pid, Step)>, t: State)
    requires Invariant(s) && TreeInvariant(s) && LogIsLanded(s.g) && Reaches(s, trace, t)
    ensures Accounted(t.g)
    decreases |trace|
  {
    if trace != [] {
      StepKeepsInvariant(s, trace[0].0, trace[0].1);
      StepKeepsTrees(s, trace[0].0, trace[0].1);
      StepKeepsSomebodys(s, trace[0].0, trace[0].1);
      RunIsAccounted(Apply(s, trace[0].0, trace[0].1), trace[1..], t);
    }
  }

  lemma ReachableIsAccounted(s: State, trace: seq<(Pid, Step)>, t: State)
    requires Initial(s) && Reaches(s, trace, t)
    ensures Accounted(t.g)
  {
    InitialHolds(s);
    RunIsAccounted(s, trace, t);
  }

  // ---- What is published ----

  /** The files of accepted state i, and of the state it replaced. */
  function FilesAt(g: Global, i: nat): Files
    requires i < |g.log|
  {
    if g.log[i].head in g.trees then g.trees[g.log[i].head] else map[]
  }

  function FilesBefore(g: Global, i: nat): Files
    requires i <= |g.log|
  {
    if i == 0 then map[] else FilesAt(g, i - 1)
  }

  /** The call that published accepted state i: its inputs passed the policy check, and the accepted
      files are the clean merge of its local side with exactly the state that was replaced. */
  ghost predicate PublishedBy(g: Global, call: Uuid, i: nat)
    requires i < |g.log|
  {
    && call in g.inputs && g.inputs[call].Passed()
    && CleanMerge(g.inputs[call].base, g.inputs[call].local, FilesBefore(g, i), FilesAt(g, i))
  }

  /** The parent of accepted state i is the state it replaced. */
  ghost predicate ChildOfBefore(g: Global, i: nat)
    requires i < |g.log|
  {
    i > 0 && g.log[i].head in g.parents && g.parents[g.log[i].head] == Some(g.log[i - 1].head)
  }

  lemma AcceptedHead(g: Global, w: Write, i: nat)
    requires LinksHold(g) && EntriesHold(g) && AcceptedAt(g, w, i)
    ensures w.edit.Prefix? ==> i > 0 && g.log[i].head == g.log[i - 1].head
    ensures !w.edit.Prefix? ==> g.log[i].head == w.edit.head
    ensures w.edit.Append? || w.edit.Quota? ==> ChildOfBefore(g, i)
  {
    assert LinkHolds(g, i);
    if i > 0 { EntryIsGood(g, i - 1); }
    BuildHead(Before(g.log, i), w.edit);
  }

  lemma AcceptedIsMerged(g: Global, w: Write, i: nat)
    requires TreesHold(g) && w in g.landed && AcceptedAt(g, w, i) && !w.edit.Prefix? && g.log[i].head == w.edit.head
    ensures PublishedBy(g, w.call, i) && (!w.edit.Root? ==> FilesAt(g, i) != FilesBefore(g, i))
  {
    assert w in g.wire + g.landed && EditMerged(g, w.call, w.obs, w.edit);
    assert ObservedFiles(g, w.obs) == FilesBefore(g, i);
  }

  /** Over every run, every accepted state but a compaction is published by a call as the clean merge
      of its local side with exactly the preceding accepted state, and a compaction changes no file.  A
      commit that would change no file is never published. */
  lemma PublicationsMerge(s: State, trace: seq<(Pid, Step)>, t: State, i: nat, w: Write)
    requires Initial(s) && Reaches(s, trace, t) && i < |t.g.log| && w in t.g.landed && AcceptedAt(t.g, w, i)
    ensures if w.edit.Prefix? then FilesAt(t.g, i) == FilesBefore(t.g, i) else PublishedBy(t.g, w.call, i)
    ensures w.edit.Append? || w.edit.Quota? ==> ChildOfBefore(t.g, i)
    ensures w.edit.First? || w.edit.Append? || w.edit.Quota? ==> FilesAt(t.g, i) != FilesBefore(t.g, i)
  {
    ReachableIsAccounted(s, trace, t);
    AcceptedHead(t.g, w, i);
    if !w.edit.Prefix? { AcceptedIsMerged(t.g, w, i); }
  }

  /** Every accepted state is some write's. */
  lemma SomebodyPublished(s: State, trace: seq<(Pid, Step)>, t: State, i: nat)
    requires Initial(s) && Reaches(s, trace, t) && i < |t.g.log|
    ensures exists w :: w in t.g.landed && AcceptedAt(t.g, w, i)
  {
    ReachableIsAccounted(s, trace, t);
    assert LandedAt(t.g, i);
  }

  lemma MergeKeepsProtected(g: Global, call: Uuid, i: nat, p: string)
    requires i < |g.log| && PublishedBy(g, call, i) && g.inputs[call].Protects(p)
    ensures At(FilesAt(g, i), p) == At(FilesBefore(g, i), p)
  {
    var input := g.inputs[call];
    assert MergesAt(At(input.base, p), At(input.local, p), At(FilesBefore(g, i), p), At(FilesAt(g, i), p));
  }

  /** Every publication that is accepted, at any position of any run, leaves each path its call's
      policy protects exactly as in the state it replaced: for a commit, in its parent's tree; for an
      encryption root, in the accepted state it was drafted on. */
  lemma PublicationKeepsProtected(s: State, trace: seq<(Pid, Step)>, t: State, i: nat, w: Write, p: string)
    requires Initial(s) && Reaches(s, trace, t) && i < |t.g.log| && w in t.g.landed && AcceptedAt(t.g, w, i)
    requires !w.edit.Prefix?
    ensures w.call in t.g.inputs
    ensures t.g.inputs[w.call].Protects(p) ==> At(FilesAt(t.g, i), p) == At(FilesBefore(t.g, i), p)
    ensures w.edit.Append? || w.edit.Quota? ==> ChildOfBefore(t.g, i)
  {
    PublicationsMerge(s, trace, t, i, w);
    if t.g.inputs[w.call].Protects(p) { MergeKeepsProtected(t.g, w.call, i, p); }
  }

  /** Whoever published accepted state k protects the path; a compaction publishes nothing. */
  ghost predicate GuardedAt(g: Global, k: nat, p: string)
  {
    forall w :: w in g.landed && AcceptedAt(g, w, k) && !w.edit.Prefix? && w.call in g.inputs ==>
      g.inputs[w.call].Protects(p)
  }

  /** A path stays as it is for as long as every publisher protects it, encryption roots included. */
  lemma {:induction false} GuardedPathStays(s: State, trace: seq<(Pid, Step)>, t: State, i: nat, j: nat, p: string)
    requires Initial(s) && Reaches(s, trace, t) && i <= j < |t.g.log|
    requires forall k :: i < k <= j ==> GuardedAt(t.g, k, p)
    ensures At(FilesAt(t.g, i), p) == At(FilesAt(t.g, j), p)
    decreases j
  {
    if i < j {
      GuardedPathStays(s, trace, t, i, j - 1, p);
      SomebodyPublished(s, trace, t, j);
      var w :| w in t.g.landed && AcceptedAt(t.g, w, j);
      PublicationsMerge(s, trace, t, j, w);
      assert GuardedAt(t.g, j, p);
      if !w.edit.Prefix? { MergeKeepsProtected(t.g, w.call, j, p); }
    }
  }
}
