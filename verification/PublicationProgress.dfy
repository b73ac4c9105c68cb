/** What the protocol achieves: when a call may give up, what a lost race or a lost answer leads to, and
    what a process that runs alone gets done from any reachable state. */
module PublicationProgress {
  import opened Wrappers
  import opened Manifest
  import opened Merging
  import opened Publication
  import opened PublicationSafety
  import opened PublicationRuns
  import opened PublicationTheorems

  // ---- Counting attempts ----

  /** A publication is on its way or was just refused. */
  predicate Asking(ph: Phase)
  {
    ((ph.Waiting? || ph.Lost?) && !ph.w.edit.Prefix?) || ph.Discard? || ph.Won? || ph.Rewrapping?
  }

  /** Every attempt but the current one sent its write and lost the race; the strict reload is the only
      extra run. */
  predicate Counted(pr: Proc)
  {
    && (Publishing(pr.phase) ==> pr.requests + 1 == pr.attempt)
    && (Asking(pr.phase) ==> pr.requests == pr.attempt)
    && (Publishing(pr.phase) || Asking(pr.phase) ==> pr.runs == pr.attempt + if pr.strict then 1 else 0)
    && (pr.phase == Finished(Busy) ==>
          pr.requests == pr.attempt == pr.limit + 1 && pr.runs == pr.attempt + if pr.strict then 1 else 0)
  }

  predicate Drafting(step: Step)
  {
    || step.Begin? || step.ReadCurrent? || step.EndUnpublished? || step.Propose? || step.Upload? || step.QuotaRefused?
    || step.Send? || step.SendRewrap? || step.EngineFault?
  }

  predicate Answering(step: Step)
  {
    step.Acknowledge? || step.LoseResponse? || step.Reject? || step.LookUp? || step.DeleteDiscarded? ||
    step.RejectRewrap?
  }

  lemma DraftingCounts(g: Global, pr: Proc, step: Step)
    requires Drafting(step) && Enabled(g, pr, step) && Counted(pr)
    ensures Counted(StepProc(g, pr, step))
  {
  }

  lemma RejectCounts(g: Global, pr: Proc, lostRace: bool)
    requires Enabled(g, pr, Reject(lostRace)) && Counted(pr) && Bounded(pr)
    ensures Counted(StepProc(g, pr, Reject(lostRace)))
  {
  }

  lemma AnsweringCounts(g: Global, pr: Proc, step: Step)
    requires Answering(step) && Enabled(g, pr, step) && Counted(pr) && Bounded(pr)
    ensures Counted(StepProc(g, pr, step))
  {
    if step.Reject? { RejectCounts(g, pr, step.lostRace); }
  }

  lemma AfterwardsCounts(g: Global, pr: Proc, step: Step)
    requires !Drafting(step) && !Answering(step) && Enabled(g, pr, step) && Counted(pr)
    ensures Counted(StepProc(g, pr, step))
  {
  }

  lemma StepKeepsCounted(g: Global, pr: Proc, step: Step)
    requires Enabled(g, pr, step) && Counted(pr) && Bounded(pr)
    ensures Counted(StepProc(g, pr, step))
  {
    if Drafting(step) { DraftingCounts(g, pr, step); }
    else if Answering(step) { AnsweringCounts(g, pr, step); }
    else { AfterwardsCounts(g, pr, step); }
  }

  ghost predicate AllCounted(s: State) { forall p :: p in s.procs ==> Counted(s.procs[p]) }

  lemma {:induction false} RunIsCounted(s: State, trace: seq<(Pid, Step)>, t: State)
    requires Invariant(s) && AllCounted(s) && Reaches(s, trace, t)
    ensures AllCounted(t)
    decreases |trace|
  {
    if trace != [] {
      StepKeepsInvariant(s, trace[0].0, trace[0].1);
      StepKeepsCounted(s.g, s.procs[trace[0].0], trace[0].1);
      RunIsCounted(Apply(s, trace[0].0, trace[0].1), trace[1..], t);
    }
  }

  lemma ReachableIsCounted(s: State, trace: seq<(Pid, Step)>, t: State)
    requires Initial(s) && Reaches(s, trace, t)
    ensures Invariant(t) && AllCounted(t)
  {
    InitialHolds(s);
    RunKeepsInvariant(s, trace, t);
    RunIsCounted(s, trace, t);
  }

  /** REMOTE_BUSY is reported only once the bound is used up: limit + 1 manifest writes were sent, and
      none of them was accepted. */
  lemma BusyMeansExhausted(s: State, trace: seq<(Pid, Step)>, t: State, p: Pid)
    requires Initial(s) && Reaches(s, trace, t) && p in t.procs && t.procs[p].phase == Finished(Busy)
    ensures t.procs[p].requests == t.procs[p].limit + 1
    ensures t.procs[p].runs == t.procs[p].limit + 1 + if t.procs[p].strict then 1 else 0
    ensures Untouched(t.g, t.procs[p].call)
  {
    ReachableIsCounted(s, trace, t);
    CallReportsTruth(s, trace, t, p);
  }

  // ---- After a lost race ----

  /** The step at which a call learns that another writer won: the refused write, the deletion of the
      checkpoint that a full space had it upload, or the refused door rewrite. */
  predicate LosesRace(pr: Proc, step: Step)
  {
    || (step == Reject(true) && pr.phase.Waiting? && !pr.phase.w.edit.Prefix? && !pr.phase.w.edit.Quota?)
    || (step == DeleteDiscarded && pr.phase.Discard? && pr.phase.lostRace)
    || (step == RejectRewrap && pr.phase.Rewrapping?)
  }

  /** Nothing of the call's own bookkeeping but the counters of attempts. */
  predicate SameCall(was: Proc, now: Proc)
  {
    && now.call == was.call && now.limit == was.limit && now.requests == was.requests && now.strict == was.strict
    && now.efforts == was.efforts
  }

  /** A lost race within the bound starts the next attempt; only the race that used up the bound ends the
      call. */
  lemma LostRaceTriesAgain(s: State, trace: seq<(Pid, Step)>, t: State, p: Pid, step: Step)
    requires Initial(s) && Reaches(s, trace, t) && CanStep(t, p, step) && LosesRace(t.procs[p], step)
    ensures var was := t.procs[p]; var now := Apply(t, p, step).procs[p];
            && SameCall(was, now) && was.requests == was.attempt
            && if was.requests <= was.limit
               then now.phase == Attempt && now.attempt == was.attempt + 1 && now.runs == was.runs + 1
               else now.phase == Finished(Busy)
  {
    ReachableIsCounted(s, trace, t);
  }

  /** A refused write that is not a lost race ends the call; a refused compaction first gives its
      checkpoint up. */
  lemma RefusalEndsOrDiscards(g: Global, pr: Proc, lostRace: bool)
    requires Enabled(g, pr, Reject(lostRace)) && WellMade(pr.phase.w) && !pr.phase.w.edit.Prefix?
    ensures var now := StepProc(g, pr, Reject(lostRace)); var w := pr.phase.w;
            && SameCall(pr, now)
            && (w.edit.Quota? ==>
                  now.phase == Discard(Key(CheckpointPack, NextIncrement(w.obs.value.manifest), w.edit.cpId), lostRace))
            && (!w.edit.Quota? && !lostRace ==> now.phase == Finished(Failed))
    ensures var h := StepGlobal(g, pr, Reject(lostRace)); pr.phase.w !in h.wire && h.log == g.log
  {
  }

  /** An unchanged result means that the accepted state already is the clean merge of the call's files: where
      the call changed a path and nobody else did, the notebook reads as the call left it. */
  lemma UnchangedIsAlreadyThere(g: Global, pr: Proc, p: string)
    requires Enabled(g, pr, EndUnpublished(NoChange))
    ensures pr.call in g.inputs
    ensures var input, accepted := g.inputs[pr.call], ObservedFiles(g, pr.phase.obs);
            At(accepted, p) == At(input.base, p) ==> At(accepted, p) == At(input.local, p)
  {
    var input, accepted := g.inputs[pr.call], ObservedFiles(g, pr.phase.obs);
    assert MergesAt(At(input.base, p), At(input.local, p), At(accepted, p), At(accepted, p));
  }

  /** The first engine failure of a call costs one strict reload and no attempt, the second one ends it. */
  lemma EngineFaultReloadsOnce(g: Global, pr: Proc)
    requires Enabled(g, pr, EngineFault)
    ensures var now := StepProc(g, pr, EngineFault);
            && now.call == pr.call && now.limit == pr.limit && now.attempt == pr.attempt && now.requests == pr.requests
            && if pr.strict then now.phase == Finished(Failed) else now.phase == Attempt && now.strict
  {
  }

  /** A lost checkpoint race rewrites the manifest again under the same identifier, limit + 1 times at most. */
  lemma LostCheckpointTriesAgain(g: Global, pr: Proc)
    requires Enabled(g, pr, Reject(true)) && pr.phase.w.edit.Prefix?
    ensures var now := StepProc(g, pr, Reject(true)); var e := pr.phase.w.edit;
            if pr.efforts <= pr.limit
            then now.phase == PlanPacked(e.plan, e.cpId, e.size) && now.efforts == pr.efforts + 1
            else now.phase == Finished(Published)
  {
  }

  // ---- Lost answers ----

  /** The edit of accepted state k drops no publication of its predecessor: it appends, or it compacts and
      the retained list only grew. */
  ghost predicate DropsNothing(g: Global, k: nat)
    requires 0 < k < |g.log| == |g.edits|
  {
    g.edits[k].Append? || (g.edits[k].Prefix? && |g.log[k].retained| == |g.log[k - 1].retained| + 1)
  }

  lemma {:induction false} PublicationStays(g: Global, i: nat, j: nat, id: Uuid)
    requires LinksHold(g) && EntriesHold(g) && i <= j < |g.log| && PublicationIn(g.log[i], id)
    requires forall k :: i < k <= j ==> DropsNothing(g, k)
    ensures PublicationIn(g.log[j], id)
    decreases j
  {
    if i < j {
      PublicationStays(g, i, j - 1, id);
      assert LinkHolds(g, j) && DropsNothing(g, j);
      var e := g.edits[j];
      if e.Append? {
        AppendNames(g.log[j - 1], e.publication, e.head, e.size);
      } else {
        EntryIsGood(g, j - 1);
        CompactKeepsPairs(g.log[j - 1], e.plan, e.cpId, e.retain, e.size);
      }
    }
  }

  lemma BuiltPublication(obs: Option<Manifest>, e: Edit)
    requires EditOk(obs, e) && !e.Prefix?
    ensures PublicationIn(Build(obs, e), e.publication)
  {
    if e.Append? {
      AppendNames(obs.value, e.publication, e.head, e.size);
      assert (e.publication, e.head) in Pairs(Build(obs, e));
    } else {
      assert (e.publication, e.head) in Pairs(Build(obs, e));
    }
  }

  /** A lost answer is decided by the publication identifier: the call goes on as accepted exactly when
      the reread manifest records it, and otherwise nothing is claimed. */
  lemma LookUpDecides(g: Global, pr: Proc)
    requires Enabled(g, pr, LookUp) && !pr.phase.w.edit.Prefix?
    ensures var now := StepProc(g, pr, LookUp).phase; var w := pr.phase.w;
            if g.current.Some? && PublicationIn(g.current.value.manifest, w.edit.publication)
            then now == Won(w) else now == Finished(Unproved)
  {
  }

  /** An accepted publication whose answer was lost is found again, however many commits and compactions
      followed, unless the retained list was trimmed or the whole chain was replaced since. */
  lemma LostAnswerIsFound(s: State, trace: seq<(Pid, Step)>, t: State, p: Pid, i: nat)
    requires Initial(s) && Reaches(s, trace, t) && p in t.procs && t.procs[p].phase.Lost?
    requires var w := t.procs[p].phase.w; !w.edit.Prefix? && w in t.g.landed && AcceptedAt(t.g, w, i)
    requires |t.g.log| == |t.g.edits| && forall k :: i < k < |t.g.log| ==> DropsNothing(t.g, k)
    ensures CanStep(t, p, LookUp) && Apply(t, p, LookUp).procs[p].phase == Won(t.procs[p].phase.w)
  {
    ReachableIsCounted(s, trace, t);
    var g, w := t.g, t.procs[p].phase.w;
    assert LinkHolds(g, i);
    BuiltPublication(Before(g.log, i), w.edit);
    PublicationStays(g, i, |g.log| - 1, w.edit.publication);
    assert Current(g) == Some(g.log[|g.log| - 1]);
    LookUpDecides(g, t.procs[p]);
  }

  /** A checkpoint whose answer was lost is looked up by its identifier, and the cleaner starts only if it is
      found. */
  lemma CheckpointLookUpDecides(g: Global, pr: Proc)
    requires Enabled(g, pr, LookUp) && pr.phase.w.edit.Prefix? && pr.phase.w.edit.plan.Ok()
    ensures var now := StepProc(g, pr, LookUp).phase; var e := pr.phase.w.edit;
            if g.current.Some? && CheckpointIn(g.current.value.manifest, e.cpId)
            then now == Sweep(e.plan.manifest.increments[e.plan.count - 1].generation) else now == Finished(Published)
  {
  }

  /** A plan is given up as soon as the manifest it rereads no longer begins with the selected prefix. */
  lemma PlanNeedsItsPrefix(g: Global, pr: Proc, retain: nat)
    requires Enabled(g, pr, ReadPlan(retain)) && g.current.Some? && pr.phase.plan.Ok()
    ensures var now := StepProc(g, pr, ReadPlan(retain)).phase; var plan := pr.phase.plan;
            var tail := g.current.value.manifest.increments;
            if plan.count <= |tail| && forall i :: 0 <= i < plan.count ==> tail[i] == plan.manifest.increments[i]
            then now == Packed(g.current, Prefix(plan, pr.phase.cpId, retain, pr.phase.size))
            else now == Finished(Published)
  {
    var plan, tail := pr.phase.plan, g.current.value.manifest.increments;
    var selected := plan.manifest.increments;
    if plan.count <= |tail| {
      forall i | 0 <= i < plan.count
        ensures tail[..plan.count][i] == tail[i] && selected[..plan.count][i] == selected[i] { }
    }
  }

  // ---- Running alone ----

  ghost predicate OnlyBy(trace: seq<(Pid, Step)>, p: Pid) { forall i :: 0 <= i < |trace| ==> trace[i].0 == p }

  /** Identifiers and a commit nobody used. */
  lemma {:induction false} SomeoneNew(used: set<nat>) returns (n: nat)
    ensures n !in used && forall m :: m in used ==> m < n
    decreases used
  {
    if used == {} {
      n := 0;
    } else {
      var m :| m in used;
      n := SomeoneNew(used - {m});
      if m >= n { n := m + 1; }
      assert used == used - {m} + {m};
    }
  }

  /** The edit a commit drafts against what it observed. */
  ghost predicate Draftable(t: State, p: Pid, e: Edit, tree: Files)
    requires p in t.procs
  {
    && (e.First? || e.Append?) && EditOk(Seen(t.g.current), e) && Fresh(e) !! t.g.used
    && e.head !in t.g.parents && e.head !in t.g.trees && Proposable(t.g, t.procs[p].call, t.g.current, e, tree)
  }

  /** A commit can always be drafted as soon as its merge is clean. */
  lemma SomethingToPropose(t: State, p: Pid, tree: Files) returns (e: Edit)
    requires p in t.procs && Merged(t.g, t.procs[p].call, t.g.current, tree) && tree != ObservedFiles(t.g, t.g.current)
    ensures Draftable(t, p, e, tree)
  {
    var id := SomeoneNew(t.g.used);
    var head := SomeoneNew(t.g.parents.Keys + t.g.trees.Keys);
    assert id !in t.g.used && id + 1 !in t.g.used;
    e := if t.g.current.None? then First(id, id + 1, head, 1) else Append(id, head, 1);
  }

  /** The process went this far without anybody else taking a step. */
  ghost predicate Alone(t: State, more: seq<(Pid, Step)>, u: State, p: Pid)
  {
    Reaches(t, more, u) && OnlyBy(more, p) && p in u.procs
  }

  lemma OneMoreAlone(t: State, more: seq<(Pid, Step)>, u: State, p: Pid, step: Step)
    requires Alone(t, more, u, p) && CanStep(u, p, step)
    ensures Alone(t, more + [(p, step)], Apply(u, p, step), p)
  {
    OneMore(t, more, u, p, step);
  }

  lemma DraftAlone(t: State, p: Pid, e: Edit, tree: Files) returns (more: seq<(Pid, Step)>, u: State)
    requires p in t.procs && t.procs[p].phase.Attempt? && Draftable(t, p, e, tree)
    ensures Alone(t, more, u, p) && u.procs[p] == t.procs[p].(phase := Packed(t.g.current, e))
    ensures u.g.current == t.g.current && u.g.log == t.g.log && u.g.edits == t.g.edits && u.g.landed == t.g.landed
    ensures e.head in u.g.trees && u.g.trees[e.head] == tree
  {
    more, u := [], t;
    OneMoreAlone(t, more, u, p, ReadCurrent);
    more, u := more + [(p, ReadCurrent)], Apply(u, p, ReadCurrent);
    OneMoreAlone(t, more, u, p, Propose(e, tree));
    more, u := more + [(p, Propose(e, tree))], Apply(u, p, Propose(e, tree));
    OneMoreAlone(t, more, u, p, Upload(true));
    more, u := more + [(p, Upload(true))], Apply(u, p, Upload(true));
  }

  /** Sends a packed edit and takes the answer. */
  lemma LandAlone(t: State, p: Pid) returns (more: seq<(Pid, Step)>, u: State)
    requires p in t.procs && t.procs[p].phase.Packed?
    requires var ph := t.procs[p].phase; ph.obs == t.g.current && EditOk(Seen(ph.obs), ph.edit)
    ensures var ph := t.procs[p].phase; var w := Write(ph.obs, ph.edit, t.procs[p].call);
            && Alone(t, more, u, p) && w in u.g.landed && u.g.trees == t.g.trees
            && u.g.log == t.g.log + [Build(Seen(ph.obs), ph.edit)] && u.g.edits == t.g.edits + [ph.edit]
            && Seen(u.g.current) == Some(Build(Seen(ph.obs), ph.edit))
            && u.procs[p].phase == (if ph.edit.Prefix? then AcceptedPlan(w) else Won(w))
            && u.procs[p].call == t.procs[p].call
  {
    var ph := t.procs[p].phase;
    var w := Write(ph.obs, ph.edit, t.procs[p].call);
    more, u := [], t;
    OneMoreAlone(t, more, u, p, Send);
    more, u := more + [(p, Send)], Apply(u, p, Send);
    OneMoreAlone(t, more, u, p, Land(w, 0));
    more, u := more + [(p, Land(w, 0))], Apply(u, p, Land(w, 0));
    OneMoreAlone(t, more, u, p, Acknowledge);
    more, u := more + [(p, Acknowledge)], Apply(u, p, Acknowledge);
  }

  lemma {:induction false} RunsJoin(s: State, a: seq<(Pid, Step)>, t: State, b: seq<(Pid, Step)>, u: State)
    requires Reaches(s, a, t) && Reaches(t, b, u)
    ensures Reaches(s, a + b, u)
    decreases |a|
  {
    if a == [] {
      assert a + b == b;
    } else {
      assert (a + b)[0] == a[0] && (a + b)[1..] == a[1..] + b;
      RunsJoin(Apply(s, a[0].0, a[0].1), a[1..], t, b, u);
    }
  }

  lemma JoinAlone(t: State, a: seq<(Pid, Step)>, v: State, b: seq<(Pid, Step)>, u: State, p: Pid)
    requires Alone(t, a, v, p) && Alone(v, b, u, p)
    ensures Alone(t, a + b, u, p)
  {
    RunsJoin(t, a, v, b, u);
  }

  lemma PublishAlone(t: State, p: Pid, e: Edit, tree: Files) returns (more: seq<(Pid, Step)>, u: State)
    requires p in t.procs && t.procs[p].phase.Attempt? && Draftable(t, p, e, tree)
    ensures Alone(t, more, u, p) && u.procs[p].phase.Won? && u.procs[p].call == t.procs[p].call
    ensures Accepted(u.g, t.procs[p].call) && u.g.log == t.g.log + [Build(Seen(t.g.current), e)]
    ensures Seen(u.g.current) == Some(Build(Seen(t.g.current), e))
    ensures e.head in u.g.trees && u.g.trees[e.head] == tree && Build(Seen(t.g.current), e).head == e.head
  {
    var drafted, v := DraftAlone(t, p, e, tree);
    var landed;
    landed, u := LandAlone(v, p);
    JoinAlone(t, drafted, v, landed, u, p);
    more := drafted + landed;
    assert Write(t.g.current, e, t.procs[p].call) in u.g.landed;
  }

  /** Nothing that happened before can keep a commit from being published: from every state in which an
      attempt begins, whoever raced with it or failed, the process alone gets the clean merge of its
      files accepted. */
  lemma AloneItPublishes(s: State, trace: seq<(Pid, Step)>, t: State, p: Pid, tree: Files)
    returns (more: seq<(Pid, Step)>, u: State)
    requires Initial(s) && Reaches(s, trace, t) && p in t.procs && t.procs[p].phase.Attempt?
    requires Merged(t.g, t.procs[p].call, t.g.current, tree) && tree != ObservedFiles(t.g, t.g.current)
    ensures Alone(t, more, u, p) && Reaches(s, trace + more, u)
    ensures u.procs[p].phase.Won? && u.procs[p].call == t.procs[p].call && Accepted(u.g, t.procs[p].call)
    ensures |u.g.log| == |t.g.log| + 1 && t.g.log <= u.g.log
    ensures var head := u.g.log[|t.g.log|].head;
            && u.g.current.Some? && u.g.current.value.manifest.head == head
            && head in u.g.trees && u.g.trees[head] == tree
  {
    var e := SomethingToPropose(t, p, tree);
    more, u := PublishAlone(t, p, e, tree);
    RunsJoin(s, trace, t, more, u);
  }

  /** A checkpoint whose prefix is still the oldest part of the tail is accepted when its worker runs
      alone; the cleaner then starts at its cutoff. */
  lemma AloneItCompacts(s: State, trace: seq<(Pid, Step)>, t: State, p: Pid, retain: nat)
    returns (more: seq<(Pid, Step)>, u: State)
    requires Initial(s) && Reaches(s, trace, t) && p in t.procs && t.procs[p].phase.PlanPacked? && t.g.current.Some?
    requires t.procs[p].phase.plan.Ok() && t.procs[p].phase.plan.PrefixPresent(t.g.current.value.manifest)
    ensures var ph := t.procs[p].phase;
            && Alone(t, more, u, p) && Reaches(s, trace + more, u)
            && Seen(u.g.current) == Some(Compact(t.g.current.value.manifest, ph.plan, ph.cpId, retain, ph.size))
            && u.procs[p].phase == Sweep(u.g.current.value.manifest.checkpoint.through)
  {
    var ph := t.procs[p].phase;
    GoodPlan(s, trace, t, p);
    more, u := CompactAlone(t, p, retain);
    RunsJoin(s, trace, t, more, u);
    assert u.g.current.value.manifest.checkpoint.through == ph.plan.Last().generation;
  }

  lemma GoodPlan(s: State, trace: seq<(Pid, Step)>, t: State, p: Pid)
    requires Initial(s) && Reaches(s, trace, t) && p in t.procs && t.procs[p].phase.PlanPacked?
    ensures t.procs[p].phase.size > 0
  {
    ReachableIsCounted(s, trace, t);
    assert ProcHolds(t.g, t.procs[p]);
  }

  lemma CompactAlone(t: State, p: Pid, retain: nat) returns (more: seq<(Pid, Step)>, u: State)
    requires p in t.procs && t.procs[p].phase.PlanPacked? && t.g.current.Some? && t.procs[p].phase.size > 0
    requires t.procs[p].phase.plan.Ok() && t.procs[p].phase.plan.PrefixPresent(t.g.current.value.manifest)
    ensures var ph := t.procs[p].phase;
            && Alone(t, more, u, p)
            && Seen(u.g.current) == Some(Compact(t.g.current.value.manifest, ph.plan, ph.cpId, retain, ph.size))
            && u.procs[p].phase == Sweep(ph.plan.Last().generation)
  {
    OneMoreAlone(t, [], t, p, ReadPlan(retain));
    var read: seq<(Pid, Step)>, v := [] + [(p, ReadPlan(retain))], Apply(t, p, ReadPlan(retain));
    var landed;
    landed, u := LandAlone(v, p);
    JoinAlone(t, read, v, landed, u, p);
    more := read + landed;
  }

  /** When the space is full the commit is published as one checkpoint that replaces the whole chain. */
  lemma AloneItCompactsAFullSpace(t: State, p: Pid, cpId: Uuid, size: nat) returns (more: seq<(Pid, Step)>, u: State)
    requires p in t.procs && t.procs[p].phase.Drafted? && t.procs[p].phase.edit.Append? && t.g.current.Some?
    requires t.procs[p].phase.obs == t.g.current && cpId !in t.g.used && size > 0
    requires t.procs[p].phase.edit.publication in t.g.used
    ensures Alone(t, more, u, p) && u.procs[p].phase.Won? && u.procs[p].call == t.procs[p].call
    ensures var e, m := t.procs[p].phase.edit, t.g.current.value.manifest;
            && u.g.current.Some? && |u.g.log| == |t.g.log| + 1
            && var next := u.g.current.value.manifest;
               && next.head == e.head && next.checkpoint.publication == e.publication && next.checkpoint.id == cpId
               && next.increments == [] && next.retained == [] && next.generation == m.generation + 1
  {
    more, u := [], t;
    OneMoreAlone(t, more, u, p, QuotaRefused(cpId, size));
    more, u := more + [(p, QuotaRefused(cpId, size))], Apply(u, p, QuotaRefused(cpId, size));
    OneMoreAlone(t, more, u, p, Upload(true));
    more, u := more + [(p, Upload(true))], Apply(u, p, Upload(true));
    var v, sent := u, more;
    more, u := LandAlone(v, p);
    JoinAlone(t, sent, v, more, u, p);
    more := sent + more;
  }

  /** A commit that brought the tail to the threshold compacts the oldest threshold increments. */
  lemma AloneItPlans(t: State, p: Pid, threshold: nat, cpId: Uuid, size: nat)
    returns (more: seq<(Pid, Step)>, u: State)
    requires p in t.procs && t.procs[p].phase.Won? && WellMade(t.procs[p].phase.w) && t.g.current.Some?
    requires t.g.current.value.manifest == NextOf(t.procs[p].phase.w)
    requires 1 <= threshold <= |t.g.current.value.manifest.increments| && cpId !in t.g.used && size > 0
    ensures Alone(t, more, u, p) && u.g.current == t.g.current && u.procs[p].phase.PlanPacked?
    ensures var ph, m := u.procs[p].phase, t.g.current.value.manifest;
            && ph.plan.Ok() && ph.plan.count == threshold && ph.plan.manifest == m && ph.cpId == cpId
            && ph.plan.PrefixPresent(m)
            && Key(CheckpointPack, m.increments[threshold - 1].generation, cpId) in u.g.packs
  {
    more, u := [], t;
    OneMoreAlone(t, more, u, p, StartPlan(threshold, cpId, size));
    more, u := more + [(p, StartPlan(threshold, cpId, size))], Apply(u, p, StartPlan(threshold, cpId, size));
    OneMoreAlone(t, more, u, p, UploadPlan(true));
    more, u := more + [(p, UploadPlan(true))], Apply(u, p, UploadPlan(true));
  }

  /** A stored key at or below the cutoff that the current manifest does not name can be deleted. */
  lemma AloneItCleans(s: State, trace: seq<(Pid, Step)>, t: State, p: Pid, k: Key)
    returns (more: seq<(Pid, Step)>, u: State)
    requires Initial(s) && Reaches(s, trace, t) && p in t.procs && t.procs[p].phase.Sweep?
    requires k.generation <= t.procs[p].phase.cutoff && k !in RootsOf(Current(t.g))
    ensures Alone(t, more, u, p) && Reaches(s, trace + more, u)
    ensures u.g == t.g.(packs := t.g.packs - {k}, doomed := t.g.doomed + {k})
    ensures u.procs[p].phase == t.procs[p].phase
  {
    SweepSeesCurrent(s, trace, t, p);
    var doomed, v := DoomAlone(t, p, k);
    more, u := [], v;
    OneMoreAlone(v, more, u, p, LandDelete({k}));
    more, u := more + [(p, LandDelete({k}))], Apply(u, p, LandDelete({k}));
    OneMoreAlone(v, more, u, p, NextBatch);
    more, u := more + [(p, NextBatch)], Apply(u, p, NextBatch);
    JoinAlone(t, doomed, v, more, u, p);
    more := doomed + more;
    RunsJoin(s, trace, t, more, u);
  }

  lemma SweepSeesCurrent(s: State, trace: seq<(Pid, Step)>, t: State, p: Pid)
    requires Initial(s) && Reaches(s, trace, t) && p in t.procs && t.procs[p].phase.Sweep?
    ensures t.g.current.Some?
  {
    ReachableIsCounted(s, trace, t);
    assert ProcHolds(t.g, t.procs[p]);
  }

  lemma DoomAlone(t: State, p: Pid, k: Key) returns (more: seq<(Pid, Step)>, u: State)
    requires p in t.procs && t.procs[p].phase.Sweep? && t.g.current.Some?
    requires k.generation <= t.procs[p].phase.cutoff && k !in RootsOf(Current(t.g))
    ensures Alone(t, more, u, p) && u.g == t.g.(doomed := t.g.doomed + {k})
    ensures u.procs[p].phase == Doomed(t.procs[p].phase.cutoff, {k})
  {
    more, u := [], t;
    OneMoreAlone(t, more, u, p, RereadRoots({k}));
    more, u := more + [(p, RereadRoots({k}))], Apply(u, p, RereadRoots({k}));
    OneMoreAlone(t, more, u, p, DeleteBatch({k}));
    more, u := more + [(p, DeleteBatch({k}))], Apply(u, p, DeleteBatch({k}));
  }

  /** The cleaner's cutoff reaches every pack that the accepted manifest no longer names. */
  lemma SweepReachesSuperseded(g: Global, i: nat, k: Key)
    requires LinksHold(g) && EntriesHold(g) && 0 < i < |g.log| && k in Roots(g.log[i - 1]) && k !in Roots(g.log[i])
    ensures !g.edits[i].Append? && k.generation <= g.log[i].checkpoint.through
  {
    assert LinkHolds(g, i);
    EntryIsGood(g, i - 1);
    BuildDrops(Before(g.log, i), g.edits[i], k);
  }

  /** After an accepted publication that replaced the chain the cleaner starts at the cutoff of that very
      manifest. */
  lemma SweepStartsAtCutoff(g: Global, pr: Proc)
    requires Enabled(g, pr, StartSweep) && WellMade(pr.phase.w) && GoodOption(Seen(pr.phase.w.obs))
    requires !pr.phase.w.edit.Prefix?
    ensures StepProc(g, pr, StartSweep).phase == Sweep(NextOf(pr.phase.w).checkpoint.through)
  {
    BuildAdvances(Seen(pr.phase.w.obs), pr.phase.w.edit);
  }
}
