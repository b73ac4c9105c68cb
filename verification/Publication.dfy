/** The publication protocol of internal/notebook: committers, checkpoint efforts, encryption roots,
    door rewrites and cleaners share one store and are interleaved one store call at a time. */
module Publication {
  import opened Manifest
  import opened Merging
  import opened Wrappers

  type Pid = nat

  /** The stored `current` object: a manifest and the bytes that wrap it.  Its etag is taken to be
      a digest of exactly these bytes, the weakest token a conditional write may compare. */
  datatype Object = Object(manifest: Manifest, wrapper: nat)

  /** A conditional write of `current` on its way to the store: create when obs is None, replace
      against the observed etag otherwise. */
  datatype Write = Write(obs: Option<Object>, edit: Edit, call: Uuid)

  /** A conditional write that replaces the wrapper of the observed object by one with other doors. */
  datatype Rewrap = Rewrap(obs: Object, wrapper: nat, call: Uuid)

  function Seen(o: Option<Object>): Option<Manifest> { if o.None? then None else Some(o.value.manifest) }

  predicate WellMade(w: Write) { EditOk(Seen(w.obs), w.edit) }

  function NextOf(w: Write): Manifest
    requires WellMade(w)
  {
    Build(Seen(w.obs), w.edit)
  }

  function KeyOf(w: Write): Key
    requires WellMade(w)
  {
    PackKey(Seen(w.obs), w.edit)
  }

  datatype Outcome = Published | NoChange | Conflict | Busy | Rewrapped | Unproved | Failed

  /** Where one process stands inside its current call. */
  datatype Phase =
    | Idle
    | Attempt
    | Observed(obs: Option<Object>)
    | Drafted(obs: Option<Object>, edit: Edit)
    | Packed(obs: Option<Object>, edit: Edit)
    | Waiting(w: Write)
    | Lost(w: Write)
    | Discard(key: Key, lostRace: bool)
    | Rewrapping(r: Rewrap)
    | Won(w: Write)
    | PlanDrafted(plan: Plan, cpId: Uuid, size: nat)
    | PlanPacked(plan: Plan, cpId: Uuid, size: nat)
    | Sweep(cutoff: nat)
    | Doomed(cutoff: nat, keys: set<Key>)
    | Finished(outcome: Outcome)

  /** attempt is the retry counter of the commit loop, runs the attempts made, requests the conditional
      writes sent, strict whether the one strict reload was spent, efforts the retry counter of the
      checkpoint loop. */
  datatype Proc = Proc(
    phase: Phase, call: Uuid, limit: nat, attempt: nat, runs: nat, requests: nat, strict: bool, efforts: nat)

  /** The store, the requests in flight, and what happened so far: every accepted manifest and the
      edit that made it, the identifiers drawn, those ever accepted and those given up, each commit's
      parent and files, what each call works with, and the door rewrites in flight and done.  doomed
      holds every key a delete request ever named: such a request may land, in part, late or more than
      once, whatever became of its sender. */
  datatype Global = Global(
    current: Option<Object>, packs: set<Key>, wire: set<Write>, landed: set<Write>, doomed: set<Key>,
    used: set<Uuid>, accepted: set<Uuid>, dropped: set<Uuid>, log: seq<Manifest>, edits: seq<Edit>,
    parents: map<Oid, Option<Oid>>, trees: map<Oid, Files>, inputs: map<Uuid, Input>,
    rewraps: set<Rewrap>, rewrapped: set<Rewrap>)

  datatype State = State(g: Global, procs: map<Pid, Proc>)

  datatype Step =
    | Begin(call: Uuid, limit: nat, input: Input)
    | ReadCurrent
    | EndUnpublished(outcome: Outcome)
    | Propose(edit: Edit, tree: Files)
    | Upload(ok: bool)
    | QuotaRefused(cpId: Uuid, size: nat)
    | Send
    | Land(w: Write, wrapper: nat)
    | Acknowledge
    | LoseResponse
    | Reject(lostRace: bool)
    | LookUp
    | DeleteDiscarded
    | StartPlan(threshold: nat, cpId: Uuid, size: nat)
    | UploadPlan(ok: bool)
    | ReadPlan(retain: nat)
    | StartSweep
    | RereadRoots(keys: set<Key>)
    | DeleteBatch(keys: set<Key>)
    | LandDelete(keys: set<Key>)
    | NextBatch
    | SendRewrap(wrapper: nat)
    | LandRewrap(r: Rewrap)
    | AnswerRewrap
    | RejectRewrap
    | LoseRewrap
    | EngineFault
    | Conclude
    | Crash

  // ---- One step ----

  /** The parent of the commit an edit publishes. */
  function ParentOf(obs: Option<Manifest>, e: Edit): Option<Oid>
  {
    if obs.Some? && (e.Append? || e.Quota?) then Some(obs.value.head) else None
  }

  /** The files of the observed state: those of its head, none without a notebook. */
  function ObservedFiles(g: Global, obs: Option<Object>): Files
  {
    if obs.Some? && obs.value.manifest.head in g.trees then g.trees[obs.value.manifest.head] else map[]
  }

  /** The merge a proposal publishes: the call's local side against the observed state. */
  ghost predicate Merged(g: Global, call: Uuid, obs: Option<Object>, tree: Files)
  {
    call in g.inputs && CleanMerge(g.inputs[call].base, g.inputs[call].local, ObservedFiles(g, obs), tree)
  }

  /** What a commit or an encryption root proposes: its merge, and for a commit one that changes something. */
  ghost predicate Proposable(g: Global, call: Uuid, obs: Option<Object>, e: Edit, tree: Files)
  {
    Merged(g, call, obs, tree) && (!e.Root? ==> tree != ObservedFiles(g, obs))
  }

  function PlanKey(plan: Plan, cpId: Uuid): Key
    requires plan.Ok()
  {
    Key(CheckpointPack, plan.Last().generation, cpId)
  }

  /** The bounded part of a call that is still trying to publish. */
  predicate Publishing(ph: Phase)
  {
    ph.Attempt? || ph.Observed? || (ph.Drafted? && !ph.edit.Prefix?) || (ph.Packed? && !ph.edit.Prefix?)
  }

  /** The best-effort part that follows an accepted publication. */
  predicate Afterwards(ph: Phase)
  {
    || ph.Won? || ph.PlanDrafted? || ph.PlanPacked? || ph.Sweep? || ph.Doomed?
    || (ph.Drafted? && ph.edit.Prefix?) || (ph.Packed? && ph.edit.Prefix?)
    || (ph.Waiting? && ph.w.edit.Prefix?) || (ph.Lost? && ph.w.edit.Prefix?)
  }

  ghost predicate Enabled(g: Global, pr: Proc, step: Step)
  {
    var ph := pr.phase;
    match step
    case Begin(call, _, input) => (ph.Idle? || ph.Finished?) && call !in g.used && input.Passed()
    case ReadCurrent => ph.Attempt?
    case EndUnpublished(outcome) =>
      && ph.Observed? && (outcome.NoChange? || outcome.Conflict?)
      && (outcome.NoChange? ==> Merged(g, pr.call, ph.obs, ObservedFiles(g, ph.obs)))
    case Propose(e, tree) =>
      && ph.Observed? && (e.First? || e.Append? || e.Root?)
      && EditOk(Seen(ph.obs), e) && Fresh(e) !! g.used
      && (e.head in g.parents ==> g.parents[e.head] == ParentOf(Seen(ph.obs), e))
      && (e.head in g.trees ==> g.trees[e.head] == tree) && Proposable(g, pr.call, ph.obs, e, tree)
    case Upload(_) => ph.Drafted? && !ph.edit.Prefix?
    case QuotaRefused(cpId, size) => ph.Drafted? && ph.edit.Append? && cpId !in g.used && size > 0
    case Send => ph.Packed?
    case Land(w, _) => w in g.wire && g.current == w.obs
    case Acknowledge => ph.Waiting? && ph.w in g.landed
    case LoseResponse => ph.Waiting?
    case Reject(_) => ph.Waiting? && ph.w in g.wire
    case LookUp => ph.Lost?
    case DeleteDiscarded => ph.Discard?
    case StartPlan(threshold, cpId, size) =>
      ph.Won? && WellMade(ph.w) && 1 <= threshold <= |NextOf(ph.w).increments| && cpId !in g.used && size > 0
    case UploadPlan(_) => ph.PlanDrafted?
    case ReadPlan(_) => ph.PlanPacked?
    case StartSweep => ph.Won? && !ph.w.edit.Append?
    case RereadRoots(keys) =>
      ph.Sweep? && g.current.Some? &&
      forall k :: k in keys ==> k.generation <= ph.cutoff && k !in Roots(g.current.value.manifest)
    case DeleteBatch(keys) => ph.Doomed? && keys <= ph.keys
    case LandDelete(keys) => keys <= g.doomed
    case NextBatch => ph.Doomed?
    case SendRewrap(_) => ph.Observed? && ph.obs.Some?
    case LandRewrap(r) => r in g.rewraps && g.current == Some(r.obs)
    case AnswerRewrap => ph.Rewrapping? && ph.r in g.rewrapped
    case RejectRewrap => ph.Rewrapping? && ph.r in g.rewraps
    case LoseRewrap => ph.Rewrapping?
    case EngineFault => Publishing(ph)
    case Conclude => Afterwards(ph)
    case Crash => !ph.Idle?
  }

  function Moved(pr: Proc, ph: Phase): Proc { pr.(phase := ph) }

  /** A lost race: another attempt within the bound, or REMOTE_BUSY. */
  function Retry(pr: Proc): Proc
  {
    if pr.attempt > pr.limit then Moved(pr, Finished(Busy))
    else pr.(phase := Attempt, attempt := pr.attempt + 1, runs := pr.runs + 1)
  }

  /** A lost checkpoint race: another manifest rewrite within the bound, or the effort is given up. */
  function RetryPlan(pr: Proc, e: Edit): Proc
    requires e.Prefix?
  {
    if pr.efforts > pr.limit then Moved(pr, Finished(Published))
    else pr.(phase := PlanPacked(e.plan, e.cpId, e.size), efforts := pr.efforts + 1)
  }

  /** What a step does to the process that takes it. */
  ghost function StepProc(g: Global, pr: Proc, step: Step): Proc
    requires Enabled(g, pr, step)
  {
    var ph := pr.phase;
    match step
    case Begin(call, limit, _) => Proc(Attempt, call, limit, 1, 1, 0, false, 0)
    case ReadCurrent => Moved(pr, Observed(g.current))
    case EndUnpublished(outcome) => Moved(pr, Finished(outcome))
    case Propose(e, _) => Moved(pr, Drafted(ph.obs, e))
    case Upload(ok) => Moved(pr, if ok then Packed(ph.obs, ph.edit) else Finished(Failed))
    case QuotaRefused(cpId, size) =>
      Moved(pr, Drafted(ph.obs, Quota(ph.edit.publication, cpId, ph.edit.head, size)))
    case Send =>
      pr.(phase := Waiting(Write(ph.obs, ph.edit, pr.call)), requests := pr.requests + if ph.edit.Prefix? then 0 else 1)
    case Land(_, _) => pr
    case Acknowledge => Moved(pr, if !ph.w.edit.Prefix? then Won(ph.w) else AcceptedPlan(ph.w))
    case LoseResponse => Moved(pr, Lost(ph.w))
    case Reject(lostRace) =>
      if ph.w.edit.Prefix? then if lostRace then RetryPlan(pr, ph.w.edit) else Moved(pr, Finished(Published))
      else if ph.w.edit.Quota? && WellMade(ph.w) then Moved(pr, Discard(KeyOf(ph.w), lostRace))
      else if lostRace then Retry(pr)
      else Moved(pr, Finished(Failed))
    case LookUp =>
      if ph.w.edit.Prefix? then
        Moved(pr, if g.current.Some? && CheckpointIn(g.current.value.manifest, ph.w.edit.cpId)
                  then AcceptedPlan(ph.w) else Finished(Published))
      else
        Moved(pr, if g.current.Some? && PublicationIn(g.current.value.manifest, ph.w.edit.publication)
                  then Won(ph.w) else Finished(Unproved))
    case DeleteDiscarded => if ph.lostRace then Retry(pr) else Moved(pr, Finished(Failed))
    case StartPlan(threshold, cpId, size) =>
      pr.(phase := PlanDrafted(Plan(NextOf(ph.w), threshold), cpId, size), efforts := 1)
    case UploadPlan(ok) => Moved(pr, if ok then PlanPacked(ph.plan, ph.cpId, ph.size) else Finished(Published))
    case ReadPlan(retain) =>
      Moved(pr, if g.current.Some? && ph.plan.Ok() && ph.plan.PrefixPresent(g.current.value.manifest)
                then Packed(g.current, Prefix(ph.plan, ph.cpId, retain, ph.size)) else Finished(Published))
    case StartSweep => Moved(pr, if WellMade(ph.w) then Sweep(KeyOf(ph.w).generation) else ph)
    case RereadRoots(keys) => Moved(pr, Doomed(ph.cutoff, keys))
    case DeleteBatch(_) => pr
    case LandDelete(_) => pr
    case NextBatch => Moved(pr, Sweep(ph.cutoff))
    case SendRewrap(wrapper) =>
      pr.(phase := Rewrapping(Rewrap(ph.obs.value, wrapper, pr.call)), requests := pr.requests + 1)
    case LandRewrap(_) => pr
    case AnswerRewrap => Moved(pr, Finished(Rewrapped))
    case RejectRewrap => Retry(pr)
    case LoseRewrap => Moved(pr, Finished(Failed))
    case EngineFault =>
      if pr.strict then Moved(pr, Finished(Failed))
      else pr.(phase := Attempt, strict := true, runs := pr.runs + 1)
    case Conclude => Moved(pr, Finished(Published))
    case Crash => Moved(pr, Finished(Failed))
  }

  /** After an accepted compaction the cleaner starts at its cutoff. */
  ghost function AcceptedPlan(w: Write): Phase
    requires w.edit.Prefix?
  {
    if w.edit.plan.Ok() then Sweep(w.edit.plan.Last().generation) else Finished(Published)
  }

  /** What a step does to the store and the history. */
  ghost function StepGlobal(g: Global, pr: Proc, step: Step): Global
    requires Enabled(g, pr, step)
  {
    var ph := pr.phase;
    match step
    case Begin(call, _, input) => g.(used := g.used + {call}, inputs := g.inputs[call := input])
    case Propose(e, tree) =>
      g.(used := g.used + Fresh(e), parents := g.parents[e.head := ParentOf(Seen(ph.obs), e)],
         trees := g.trees[e.head := tree])
    case Upload(_) => if EditOk(Seen(ph.obs), ph.edit) then g.(packs := g.packs + {PackKey(Seen(ph.obs), ph.edit)})
      else g
    case QuotaRefused(cpId, _) => g.(used := g.used + {cpId})
    case Send => g.(wire := g.wire + {Write(ph.obs, ph.edit, pr.call)})
    case Land(w, wrapper) => if WellMade(w) then LandWrite(g, w, wrapper) else g
    case Reject(_) => g.(wire := g.wire - {ph.w})
    case DeleteDiscarded => g.(doomed := g.doomed + {ph.key}, dropped := g.dropped + {ph.key.id})
    case StartPlan(_, cpId, _) => g.(used := g.used + {cpId})
    case UploadPlan(_) => if ph.plan.Ok() then g.(packs := g.packs + {PlanKey(ph.plan, ph.cpId)}) else g
    case DeleteBatch(keys) => g.(doomed := g.doomed + keys)
    case LandDelete(keys) => g.(packs := g.packs - keys)
    case SendRewrap(wrapper) => g.(rewraps := g.rewraps + {Rewrap(ph.obs.value, wrapper, pr.call)})
    case LandRewrap(r) =>
      g.(current := Some(Object(r.obs.manifest, r.wrapper)), rewraps := g.rewraps - {r}, rewrapped := g.rewrapped + {r})
    case RejectRewrap => g.(rewraps := g.rewraps - {ph.r})
    case _ => g
  }

  function LandWrite(g: Global, w: Write, wrapper: nat): Global
    requires WellMade(w)
  {
    g.(current := Some(Object(NextOf(w), wrapper)), wire := g.wire - {w}, landed := g.landed + {w},
       accepted := g.accepted + NewIds(w), log := g.log + [NextOf(w)], edits := g.edits + [w.edit])
  }

  function NewIds(w: Write): set<Uuid> { Fresh(w.edit) }

  ghost predicate CanStep(s: State, p: Pid, step: Step) { p in s.procs && Enabled(s.g, s.procs[p], step) }

  ghost function Apply(s: State, p: Pid, step: Step): State
    requires CanStep(s, p, step)
  {
    State(StepGlobal(s.g, s.procs[p], step), s.procs[p := StepProc(s.g, s.procs[p], step)])
  }
}
