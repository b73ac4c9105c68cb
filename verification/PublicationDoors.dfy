/** Door rewrites in the publication protocol: they change the wrapper of exactly the object they observed,
    and the call that sent one reports what became of it. */
module PublicationDoors {
  import opened Wrappers
  import opened Manifest
  import opened Publication
  import opened PublicationSafety
  import opened PublicationRuns
  import opened PublicationTheorems
  import opened PublicationProgress

  /** A door rewrite lands only on the very object it observed, keeps the manifest, and installs its own
      wrapper. */
  lemma RewrapChangesDoorsOnly(g: Global, pr: Proc, r: Rewrap)
    requires Enabled(g, pr, LandRewrap(r))
    ensures var h := StepGlobal(g, pr, LandRewrap(r));
            && g.current == Some(r.obs) && h.current == Some(Object(r.obs.manifest, r.wrapper))
            && h == g.(current := h.current, rewraps := h.rewraps, rewrapped := h.rewrapped)
  {
  }

  // ---- The rewrites of one call ----

  ghost predicate NoRewraps(g: Global, call: Uuid)
  {
    forall r :: r in g.rewraps + g.rewrapped ==> r.call != call
  }

  /** Nothing of the call was rewritten before its answer is known; a reported rewrite landed. */
  ghost predicate DoorsHold(g: Global, pr: Proc)
  {
    match pr.phase
    case Idle => true
    case Rewrapping(r) => r.call == pr.call && forall q :: q in g.rewraps + g.rewrapped && q.call == pr.call ==> q == r
    case Finished(Rewrapped) => exists r :: r in g.rewrapped && r.call == pr.call
    case Finished(Failed) => true
    case _ => NoRewraps(g, pr.call)
  }

  ghost predicate RewrapsDrawn(g: Global) { forall r :: r in g.rewraps + g.rewrapped ==> r.call in g.used }

  ghost predicate AllDoors(s: State)
  {
    && RewrapsDrawn(s.g) && s.g.rewraps !! s.g.rewrapped
    && forall p :: p in s.procs ==> DoorsHold(s.g, s.procs[p])
  }

  /** No rewrite of a process that is still waiting was sent before. */
  lemma SentOnce(g: Global, pr: Proc, step: Step)
    requires Enabled(g, pr, step) && DoorsHold(g, pr) && g.rewraps !! g.rewrapped
    ensures var h := StepGlobal(g, pr, step); h.rewraps !! h.rewrapped
  {
    if step.SendRewrap? { assert Rewrap(pr.phase.obs.value, step.wrapper, pr.call) !in g.rewraps + g.rewrapped; }
  }

  lemma StepKeepsMyDoors(g: Global, pr: Proc, step: Step)
    requires Enabled(g, pr, step) && DoorsHold(g, pr) && RewrapsDrawn(g) && g.rewraps !! g.rewrapped
    requires !pr.phase.Idle? ==> pr.call in g.used
    ensures DoorsHold(StepGlobal(g, pr, step), StepProc(g, pr, step))
  {
    if step.AnswerRewrap? {
      assert pr.phase.r in g.rewrapped;
    } else if step.RejectRewrap? {
      RejectKeepsDoors(g, pr);
    } else if step.LandRewrap? {
      LandKeepsDoors(g, StepGlobal(g, pr, step), step.r, pr);
    } else if !step.SendRewrap? {
      OtherStepKeepsDoors(g, pr, step);
    }
  }

  lemma RejectKeepsDoors(g: Global, pr: Proc)
    requires Enabled(g, pr, RejectRewrap) && DoorsHold(g, pr) && g.rewraps !! g.rewrapped
    ensures DoorsHold(StepGlobal(g, pr, RejectRewrap), StepProc(g, pr, RejectRewrap))
  {
    var h := StepGlobal(g, pr, RejectRewrap);
    assert forall q :: q in h.rewraps + h.rewrapped ==> q in g.rewraps + g.rewrapped && q != pr.phase.r;
  }

  /** Steps that send no rewrite and answer none. */
  lemma OtherStepKeepsDoors(g: Global, pr: Proc, step: Step)
    requires Enabled(g, pr, step) && DoorsHold(g, pr) && RewrapsDrawn(g)
    requires !step.SendRewrap? && !step.LandRewrap? && !step.AnswerRewrap? && !step.RejectRewrap?
    ensures DoorsHold(StepGlobal(g, pr, step), StepProc(g, pr, step))
  {
    OtherStepSameRewraps(g, pr, step);
    if Drafting(step) { DraftingKeepsDoors(g, pr, step); } else { LaterKeepsDoors(g, pr, step); }
  }

  lemma OtherStepSameRewraps(g: Global, pr: Proc, step: Step)
    requires Enabled(g, pr, step) && !step.SendRewrap? && !step.LandRewrap? && !step.RejectRewrap?
    ensures var h := StepGlobal(g, pr, step); h.rewraps == g.rewraps && h.rewrapped == g.rewrapped
  {
  }

  lemma DraftingKeepsDoors(g: Global, pr: Proc, step: Step)
    requires Enabled(g, pr, step) && DoorsHold(g, pr) && RewrapsDrawn(g) && Drafting(step) && !step.SendRewrap?
    ensures DoorsHold(g, StepProc(g, pr, step))
  {
  }

  lemma LaterKeepsDoors(g: Global, pr: Proc, step: Step)
    requires Enabled(g, pr, step) && DoorsHold(g, pr) && !Drafting(step)
    requires !step.LandRewrap? && !step.AnswerRewrap? && !step.RejectRewrap?
    ensures DoorsHold(g, StepProc(g, pr, step))
  {
  }

  lemma LandKeepsDoors(g: Global, h: Global, r: Rewrap, pr: Proc)
    requires DoorsHold(g, pr) && h.rewraps + h.rewrapped == g.rewraps + g.rewrapped && g.rewrapped <= h.rewrapped
    ensures DoorsHold(h, pr)
  {
  }

  lemma StepKeepsOtherDoors(g: Global, pr: Proc, step: Step, other: Proc)
    requires Enabled(g, pr, step) && DoorsHold(g, other) && RewrapsDrawn(g)
    requires pr.phase.Idle? || other.phase.Idle? || pr.call != other.call
    ensures DoorsHold(StepGlobal(g, pr, step), other)
  {
    var h := StepGlobal(g, pr, step);
    if step.SendRewrap? || step.RejectRewrap? {
      assert forall q :: q in h.rewraps + h.rewrapped && q.call != pr.call ==> q in g.rewraps + g.rewrapped;
    } else if step.LandRewrap? {
      assert h.rewraps + h.rewrapped == g.rewraps + g.rewrapped;
      LandKeepsDoors(g, h, step.r, other);
    } else {
      assert h.rewraps == g.rewraps && h.rewrapped == g.rewrapped;
    }
  }

  lemma StepKeepsDrawn(g: Global, pr: Proc, step: Step)
    requires Enabled(g, pr, step) && RewrapsDrawn(g) && (!pr.phase.Idle? ==> pr.call in g.used)
    ensures RewrapsDrawn(StepGlobal(g, pr, step))
  {
    var h := StepGlobal(g, pr, step);
    forall r | r in h.rewraps + h.rewrapped ensures r.call in h.used {
      assert r in g.rewraps + g.rewrapped || r.call == pr.call;
    }
  }

  lemma StepKeepsDoors(s: State, p: Pid, step: Step)
    requires Invariant(s) && AllDoors(s) && CanStep(s, p, step)
    ensures AllDoors(Apply(s, p, step))
  {
    var g, me, t := s.g, s.procs[p], Apply(s, p, step);
    assert ProcHolds(g, me);
    StepKeepsDrawn(g, me, step);
    SentOnce(g, me, step);
    forall q | q in t.procs ensures DoorsHold(t.g, t.procs[q]) {
      if q == p {
        StepKeepsMyDoors(g, me, step);
      } else {
        assert PairApart(me, s.procs[q]);
        StepKeepsOtherDoors(g, me, step, s.procs[q]);
      }
    }
  }

  lemma {:induction false} RunKeepsDoors(s: State, trace: seq<(Pid, Step)>, t: State)
    requires Invariant(s) && AllDoors(s) && Reaches(s, trace, t)
    ensures AllDoors(t)
    decreases |trace|
  {
    if trace != [] {
      StepKeepsInvariant(s, trace[0].0, trace[0].1);
      StepKeepsDoors(s, trace[0].0, trace[0].1);
      RunKeepsDoors(Apply(s, trace[0].0, trace[0].1), trace[1..], t);
    }
  }

  /** A call that reports new doors had its rewrite accepted; one that reports REMOTE_BUSY, a conflict or no
      change had none accepted and has none in flight. */
  lemma DoorsReportTruth(s: State, trace: seq<(Pid, Step)>, t: State, p: Pid)
    requires Initial(s) && Reaches(s, trace, t) && p in t.procs
    ensures t.procs[p].phase == Finished(Rewrapped) ==>
              exists r :: r in t.g.rewrapped && r !in t.g.rewraps && r.call == t.procs[p].call
    ensures Unpublished(t.procs[p].phase) ==> NoRewraps(t.g, t.procs[p].call)
  {
    InitialHolds(s);
    RunKeepsDoors(s, trace, t);
    assert DoorsHold(t.g, t.procs[p]);
  }

  /** From every state in which an attempt begins, a call that runs alone gets its doors installed. */
  lemma AloneItRewraps(s: State, trace: seq<(Pid, Step)>, t: State, p: Pid, wrapper: nat)
    returns (more: seq<(Pid, Step)>, u: State)
    requires Initial(s) && Reaches(s, trace, t) && p in t.procs && t.procs[p].phase.Attempt? && t.g.current.Some?
    ensures Alone(t, more, u, p) && Reaches(s, trace + more, u) && u.procs[p].phase == Finished(Rewrapped)
    ensures u.g.current == Some(Object(t.g.current.value.manifest, wrapper)) && u.g.log == t.g.log
  {
    var r := Rewrap(t.g.current.value, wrapper, t.procs[p].call);
    more, u := [], t;
    OneMoreAlone(t, more, u, p, ReadCurrent);
    more, u := more + [(p, ReadCurrent)], Apply(u, p, ReadCurrent);
    OneMoreAlone(t, more, u, p, SendRewrap(wrapper));
    more, u := more + [(p, SendRewrap(wrapper))], Apply(u, p, SendRewrap(wrapper));
    OneMoreAlone(t, more, u, p, LandRewrap(r));
    more, u := more + [(p, LandRewrap(r))], Apply(u, p, LandRewrap(r));
    OneMoreAlone(t, more, u, p, AnswerRewrap);
    more, u := more + [(p, AnswerRewrap)], Apply(u, p, AnswerRewrap);
    RunsJoin(s, trace, t, more, u);
  }
}
