/** What holds in every state that any interleaving of processes can reach. */
module PublicationTheorems {
  import opened Manifest
  import opened Wrappers
  import opened Merging
  import Policy
  import opened Publication
  import opened PublicationSafety
  import opened PublicationRuns

  // ---- Runs ----

  /** An empty notebook: no `current`, nothing in flight, every process idle.  Stray packs, drawn
      identifiers and local commits may already exist. */
  predicate Initial(s: State)
  {
    && s.g.current.None? && s.g.wire == {} && s.g.landed == {} && s.g.doomed == {} && s.g.dropped == {}
    && s.g.accepted == {} && s.g.log == [] && s.g.edits == [] && s.g.inputs == map[]
    && s.g.rewraps == {} && s.g.rewrapped == {}
    && forall p :: p in s.procs ==> s.procs[p].phase.Idle? && Bounded(s.procs[p])
  }

  /** The trace leads from s to t, one step of one process at a time. */
  ghost predicate Reaches(s: State, trace: seq<(Pid, Step)>, t: State)
    decreases |trace|
  {
    if trace == [] then s == t
    else CanStep(s, trace[0].0, trace[0].1) && Reaches(Apply(s, trace[0].0, trace[0].1), trace[1..], t)
  }

  lemma InitialHolds(s: State)
    requires Initial(s)
    ensures Invariant(s)
  {
  }

  lemma {:induction false} RunKeepsInvariant(s: State, trace: seq<(Pid, Step)>, t: State)
    requires Invariant(s) && Reaches(s, trace, t)
    ensures Invariant(t)
    decreases |trace|
  {
    if trace != [] {
      StepKeepsInvariant(s, trace[0].0, trace[0].1);
      RunKeepsInvariant(Apply(s, trace[0].0, trace[0].1), trace[1..], t);
    }
  }

  // ---- Storage ----

  /** In every reachable state every pack referenced by the current manifest, active or retained, is
      stored: no interleaving of cleaners, discarded compactions and writers deletes one. */
  lemma ReferencedPacksAreStored(s: State, trace: seq<(Pid, Step)>, t: State)
    requires Initial(s) && Reaches(s, trace, t)
    ensures t.g.current.Some? ==> Roots(t.g.current.value.manifest) <= t.g.packs
  {
    InitialHolds(s);
    RunKeepsInvariant(s, trace, t);
  }

  // ---- The accepted history ----

  lemma EntryIsGood(g: Global, i: nat)
    requires EntriesHold(g) && i < |g.log|
    ensures Good(g.log[i])
  {
    assert Known(g, g.log[i]);
    assert EntryHolds(g, g.log[i]);
  }

  /** An accepted manifest is one generation after its predecessor. */
  lemma NextGeneration(g: Global, i: nat)
    requires i < |g.log| == |g.edits| && LinkHolds(g, i) && GoodOption(Before(g.log, i))
    ensures g.log[i].generation == Generation(Before(g.log, i)) + 1
  {
    BuildAdvances(Before(g.log, i), g.edits[i]);
  }

  lemma BeforeIsGood(g: Global, i: nat)
    requires EntriesHold(g) && i <= |g.log|
    ensures GoodOption(Before(g.log, i))
  {
    if i > 0 { EntryIsGood(g, i - 1); }
  }

  ghost predicate AllLinked(g: Global) { |g.log| == |g.edits| && forall i :: 0 <= i < |g.log| ==> LinkHolds(g, i) }

  lemma {:induction false} GenerationIsPosition(g: Global, i: nat)
    requires AllLinked(g) && EntriesHold(g) && i < |g.log|
    ensures g.log[i].generation == i + 1
    decreases i
  {
    if i > 0 { GenerationIsPosition(g, i - 1); }
    BeforeIsGood(g, i);
    NextGeneration(g, i);
  }

  /** Every manifest ever accepted is good, and the i-th one has generation i, so no two are equal
      and an etag never matches a later state. */
  lemma AcceptedManifestsAreGood(s: State, trace: seq<(Pid, Step)>, t: State, i: nat)
    requires Initial(s) && Reaches(s, trace, t) && i < |t.g.log|
    ensures Good(t.g.log[i])
    ensures t.g.log[i].generation == i + 1
  {
    InitialHolds(s);
    RunKeepsInvariant(s, trace, t);
    EntryIsGood(t.g, i);
    GenerationIsPosition(t.g, i);
  }

  /** Consecutive accepted manifests: a publication is a child of the preceding head, a compaction
      leaves the head alone, and only an encryption root starts a new line. */
  ghost predicate OneLine(g: Global, i: nat)
    requires 0 < i < |g.log| == |g.edits|
  {
    var head, before := g.log[i].head, g.log[i - 1].head;
    match g.edits[i]
    case Append(_, _, _) => head in g.parents && g.parents[head] == Some(before)
    case Quota(_, _, _, _) => head in g.parents && g.parents[head] == Some(before)
    case Prefix(_, _, _, _) => head == before
    case Root(_, _, _, _) => head in g.parents && g.parents[head] == None
    case First(_, _, _, _) => false
  }

  lemma LinksAreOneLine(g: Global, i: nat)
    requires LinksHold(g) && EntriesHold(g) && 0 < i < |g.log|
    ensures OneLine(g, i)
  {
    assert LinkHolds(g, i);
    if g.edits[i].Prefix? {
      EntryIsGood(g, i - 1);
      CompactActive(g.log[i - 1], g.edits[i].plan, g.edits[i].cpId, g.edits[i].retain, g.edits[i].size);
    }
  }

  /** Over every run the accepted heads form one line. */
  lemma HeadsFormOneLine(s: State, trace: seq<(Pid, Step)>, t: State, i: nat)
    requires Initial(s) && Reaches(s, trace, t) && 0 < i < |t.g.log|
    ensures |t.g.log| == |t.g.edits| && OneLine(t.g, i)
  {
    InitialHolds(s);
    RunKeepsInvariant(s, trace, t);
    LinksAreOneLine(t.g, i);
  }

  /** A path of commits from an ancestor to a descendant. */
  ghost predicate Descent(parents: map<Oid, Option<Oid>>, path: seq<Oid>)
  {
    && path != []
    && forall k :: 0 < k < |path| ==> path[k] in parents && parents[path[k]] == Some(path[k - 1])
  }

  lemma {:induction false} DescentBetween(g: Global, i: nat, j: nat) returns (path: seq<Oid>)
    requires LinksHold(g) && EntriesHold(g) && i <= j < |g.log|
    requires forall k :: i < k <= j ==> !g.edits[k].Root?
    ensures Descent(g.parents, path) && path[0] == g.log[i].head && path[|path| - 1] == g.log[j].head
    decreases j
  {
    if i == j {
      path := [g.log[i].head];
    } else {
      path := DescentBetween(g, i, j - 1);
      LinksAreOneLine(g, j);
      if !g.edits[j].Prefix? { path := path + [g.log[j].head]; }
    }
  }

  /** No accepted update is lost: until an encryption root replaces the history, every accepted head
      is an ancestor of every later accepted head. */
  lemma UpdatesSurvive(s: State, trace: seq<(Pid, Step)>, t: State, i: nat, j: nat) returns (path: seq<Oid>)
    requires Initial(s) && Reaches(s, trace, t) && i <= j < |t.g.log|
    requires forall k :: i < k <= j && k < |t.g.edits| ==> !t.g.edits[k].Root?
    ensures Descent(t.g.parents, path) && path[0] == t.g.log[i].head && path[|path| - 1] == t.g.log[j].head
  {
    InitialHolds(s);
    RunKeepsInvariant(s, trace, t);
    path := DescentBetween(t.g, i, j);
  }

  // ---- Accepted exactly on what was observed ----

  ghost predicate AcceptedAt(g: Global, w: Write, i: nat)
  {
    i < |g.log| && i < |g.edits| && g.edits[i] == w.edit && Before(g.log, i) == Seen(w.obs)
  }

  ghost predicate InPlace(g: Global) { forall w :: w in g.landed ==> exists i :: AcceptedAt(g, w, i) }

  lemma StepKeepsPlace(s: State, p: Pid, step: Step)
    requires Invariant(s) && CanStep(s, p, step) && InPlace(s.g)
    ensures InPlace(Apply(s, p, step).g)
  {
    var g, h := s.g, Apply(s, p, step).g;
    if step.Land? {
      assert WriteHolds(g, step.w);
      LandsInPlace(g, step.w, step.wrapper);
    } else {
      UnlessLanded(g, s.procs[p], step);
      forall w | w in h.landed ensures exists i :: AcceptedAt(h, w, i) {
        var i :| AcceptedAt(g, w, i);
        assert AcceptedAt(h, w, i);
      }
    }
  }

  lemma UnlessLanded(g: Global, pr: Proc, step: Step)
    requires Enabled(g, pr, step) && !step.Land?
    ensures var h := StepGlobal(g, pr, step); h.landed == g.landed && h.log == g.log && h.edits == g.edits
  {
  }

  lemma LandsInPlace(g: Global, w: Write, wrapper: nat)
    requires LinksHold(g) && InPlace(g) && WellMade(w) && g.current == w.obs
    ensures InPlace(LandWrite(g, w, wrapper))
  {
    var h := LandWrite(g, w, wrapper);
    forall v | v in h.landed ensures exists i :: AcceptedAt(h, v, i) {
      if v in g.landed {
        var i :| AcceptedAt(g, v, i);
        assert Before(h.log, i) == Before(g.log, i);
        assert AcceptedAt(h, v, i);
      } else {
        assert Before(h.log, |g.log|) == Current(g);
        assert AcceptedAt(h, v, |g.log|);
      }
    }
  }

  lemma {:induction false} RunKeepsPlace(s: State, trace: seq<(Pid, Step)>, t: State)
    requires Invariant(s) && InPlace(s.g) && Reaches(s, trace, t)
    ensures InPlace(t.g)
    decreases |trace|
  {
    if trace != [] {
      StepKeepsInvariant(s, trace[0].0, trace[0].1);
      StepKeepsPlace(s, trace[0].0, trace[0].1);
      RunKeepsPlace(Apply(s, trace[0].0, trace[0].1), trace[1..], t);
    }
  }

  /** A write succeeds only on the very state it observed: its edit was accepted directly after the
      manifest it read, whatever happened to the stored bytes in between. */
  lemma AcceptedOnWhatWasObserved(s: State, trace: seq<(Pid, Step)>, t: State, w: Write)
    requires Initial(s) && Reaches(s, trace, t) && w in t.g.landed
    ensures exists i :: AcceptedAt(t.g, w, i)
  {
    InitialHolds(s);
    RunKeepsPlace(s, trace, t);
  }

  // ---- One call ----

  ghost predicate PublishedOnce(g: Global, call: Uuid)
  {
    forall w, v ::
      w in g.landed && v in g.landed && !w.edit.Prefix? && !v.edit.Prefix? && w.call == call && v.call == call
      ==> w == v
  }

  /** A conflict, an unchanged result or REMOTE_BUSY. */
  predicate Unpublished(ph: Phase)
  {
    ph.Finished? && (ph.outcome.Conflict? || ph.outcome.NoChange? || ph.outcome.Busy?)
  }

  /** OK means the call's publication was accepted; the unpublished results mean nothing of it was
      accepted or is still in flight; at most one publication, within the retry bound. */
  ghost predicate Truthful(g: Global, pr: Proc)
  {
    && PublishedOnce(g, pr.call)
    && pr.requests <= pr.limit + 1 && pr.runs <= pr.limit + 2
    && (pr.phase == Finished(Published) ==> Accepted(g, pr.call))
    && (Unpublished(pr.phase) ==> Untouched(g, pr.call))
  }

  lemma OnceMeansOnce(g: Global, call: Uuid)
    requires OncePerCall(g)
    ensures PublishedOnce(g, call)
  {
    forall w, v | w in g.landed && v in g.landed ensures AtMostOnce(w, v) {
      assert w in g.wire + g.landed && v in g.wire + g.landed;
    }
  }

  lemma ProcIsTruthful(g: Global, pr: Proc)
    requires OncePerCall(g) && ProcHolds(g, pr)
    ensures Truthful(g, pr)
  {
    OnceMeansOnce(g, pr.call);
  }

  /** Every call of every run reports the truth. */
  lemma CallReportsTruth(s: State, trace: seq<(Pid, Step)>, t: State, p: Pid)
    requires Initial(s) && Reaches(s, trace, t) && p in t.procs
    ensures Truthful(t.g, t.procs[p])
  {
    InitialHolds(s);
    RunKeepsInvariant(s, trace, t);
    ProcIsTruthful(t.g, t.procs[p]);
  }

  /** The call is over without a publication and no process continues it. */
  ghost predicate OverUnpublished(s: State, call: Uuid)
  {
    && call in s.g.used && Untouched(s.g, call)
    && forall p :: p in s.procs && s.procs[p].call == call ==> s.procs[p].phase.Idle? || s.procs[p].phase.Finished?
  }

  lemma StepKeepsOver(s: State, p: Pid, step: Step, call: Uuid)
    requires OverUnpublished(s, call) && CanStep(s, p, step)
    ensures OverUnpublished(Apply(s, p, step), call)
  {
    var g, pr, t := s.g, s.procs[p], Apply(s, p, step);
    OverCall(g, pr, step, call);
    OverGlobal(g, pr, step, call);
  }

  lemma OverCall(g: Global, pr: Proc, step: Step, call: Uuid)
    requires Enabled(g, pr, step) && call in g.used
    requires pr.call == call ==> pr.phase.Idle? || pr.phase.Finished?
    ensures var after := StepProc(g, pr, step); after.call == call ==> after.phase.Idle? || after.phase.Finished?
  {
  }

  lemma OverGlobal(g: Global, pr: Proc, step: Step, call: Uuid)
    requires Enabled(g, pr, step) && call in g.used && Untouched(g, call)
    requires pr.call == call ==> pr.phase.Idle? || pr.phase.Finished?
    ensures var h := StepGlobal(g, pr, step); call in h.used && Untouched(h, call)
  {
    var h := StepGlobal(g, pr, step);
    forall w | w in h.wire + h.landed ensures w.edit.Prefix? || w.call != call {
      assert w in g.wire + g.landed || (step.Send? && w.call == pr.call);
    }
  }

  /** A call that ended in a conflict, unchanged or REMOTE_BUSY is never published later, however the
      run continues. */
  lemma {:induction false} NeverPublishedLater(s: State, trace: seq<(Pid, Step)>, t: State, call: Uuid)
    requires OverUnpublished(s, call) && Reaches(s, trace, t)
    ensures forall w :: w in t.g.landed && w.call == call ==> w.edit.Prefix?
    decreases |trace|
  {
    if trace == [] {
      forall w | w in t.g.landed && w.call == call ensures w.edit.Prefix? {
        assert w in t.g.wire + t.g.landed;
      }
    } else {
      StepKeepsOver(s, trace[0].0, trace[0].1, call);
      NeverPublishedLater(Apply(s, trace[0].0, trace[0].1), trace[1..], t, call);
    }
  }

  /** The end of such a call is exactly what the previous lemma needs. */
  lemma EndIsOver(s: State, trace: seq<(Pid, Step)>, t: State, p: Pid)
    requires Initial(s) && Reaches(s, trace, t) && p in t.procs && Unpublished(t.procs[p].phase)
    ensures OverUnpublished(t, t.procs[p].call)
  {
    InitialHolds(s);
    RunKeepsInvariant(s, trace, t);
    CallReportsTruth(s, trace, t, p);
    assert t.procs[p].call in t.g.used by { DrawnCall(t.g, t.procs[p]); }
    forall q | q in t.procs && t.procs[q].call == t.procs[p].call
      ensures t.procs[q].phase.Idle? || t.procs[q].phase.Finished?
    {
      if q != p { assert PairApart(t.procs[q], t.procs[p]); }
    }
  }

  lemma DrawnCall(g: Global, pr: Proc)
    requires ProcHolds(g, pr) && !pr.phase.Idle?
    ensures pr.call in g.used
  {
  }

  // ---- Runs that publish ----

  lemma OneMore(s: State, trace: seq<(Pid, Step)>, t: State, p: Pid, step: Step)
    requires Reaches(s, trace, t) && CanStep(t, p, step)
    ensures Reaches(s, trace + [(p, step)], Apply(t, p, step))
    decreases |trace|
  {
    var longer := trace + [(p, step)];
    if trace == [] {
      assert longer[0] == (p, step) && longer[1..] == [];
    } else {
      assert longer[0] == trace[0] && longer[1..] == trace[1..] + [(p, step)];
      OneMore(Apply(s, trace[0].0, trace[0].1), trace[1..], t, p, step);
    }
  }

  /** A first commit of one file into an empty notebook without a policy. */
  function FirstInput(): Input
  {
    Input(map[], map["f" := "x"], Policy.Host(p => true, p => p),
          Policy.PathPolicy(Policy.EntrySet([], []), Policy.EntrySet([], [])))
  }

  function Nothing(): State
  {
    State(Global(None, {}, {}, {}, {}, {}, {}, {}, [], [], map[], map[], map[], {}, {}),
      map[0 := Proc(Idle, 0, 3, 0, 0, 0, false, 0)])
  }

  lemma FirstInputPasses()
    ensures FirstInput().Passed()
  {
    forall p ensures !FirstInput().Protects(p) {
      assert Policy.Elements([]) == {};
    }
  }

  /** The protocol can publish: from an empty notebook one process reaches an accepted manifest. */
  lemma FirstPublicationIsReachable() returns (trace: seq<(Pid, Step)>, t: State)
    ensures Initial(Nothing()) && Reaches(Nothing(), trace, t)
    ensures t.g.log == [Single(1, 1, 7, 8, 9, 10)] && 0 in t.procs && t.procs[0].phase.Won?
  {
    var s, w := Nothing(), Write(None, First(7, 8, 9, 10), 1);
    trace, t := SentSteps();
    OneMore(s, trace, t, 0, Land(w, 5));
    trace, t := trace + [(0, Land(w, 5))], Apply(t, 0, Land(w, 5));
    OneMore(s, trace, t, 0, Acknowledge);
    trace, t := trace + [(0, Acknowledge)], Apply(t, 0, Acknowledge);
  }

  lemma SentSteps() returns (trace: seq<(Pid, Step)>, t: State)
    ensures Reaches(Nothing(), trace, t) && 0 in t.procs
    ensures var w := Write(None, First(7, 8, 9, 10), 1); t.procs[0].phase == Waiting(w) && w in t.g.wire
    ensures t.g.current.None? && t.g.log == []
  {
    trace, t := FirstSteps();
    OneMore(Nothing(), trace, t, 0, Send);
    trace, t := trace + [(0, Send)], Apply(t, 0, Send);
  }

  lemma FirstSteps() returns (trace: seq<(Pid, Step)>, t: State)
    ensures Reaches(Nothing(), trace, t) && 0 in t.procs
    ensures t.procs[0].phase == Packed(None, First(7, 8, 9, 10)) && t.procs[0].call == 1
    ensures t.g.current.None? && t.g.log == []
  {
    var s, e, input := Nothing(), First(7, 8, 9, 10), FirstInput();
    FirstInputPasses();
    trace, t := [], s;
    OneMore(s, trace, t, 0, Begin(1, 3, input));
    trace, t := trace + [(0, Begin(1, 3, input))], Apply(t, 0, Begin(1, 3, input));
    OneMore(s, trace, t, 0, ReadCurrent);
    trace, t := trace + [(0, ReadCurrent)], Apply(t, 0, ReadCurrent);
    assert Proposable(t.g, 1, None, e, input.local) by { assert "f" in input.local; }
    OneMore(s, trace, t, 0, Propose(e, input.local));
    trace, t := trace + [(0, Propose(e, input.local))], Apply(t, 0, Propose(e, input.local));
    OneMore(s, trace, t, 0, Upload(true));
    trace, t := trace + [(0, Upload(true))], Apply(t, 0, Upload(true));
  }
}
