/** The EOS-04 backfill: one worker drives a job through the stages up to its mode's limit, may
    die anywhere, and a redelivered task first recovers what the dead worker left behind. */
module StagePipeline {
  import opened Wrappers
  import opened Sequences
  import JobProtocol
  import JobStore
  import opened StageStore

  datatype Mode = MetadataOnly | DownloadOnly | PrepareOnly | FullPipeline | Unsupported

  const STAGE_NAMES: seq<StageName> :=
    [ProviderSearch, RawDownload, PrepareScene, SceneValidation, ObjectStorage, PgstacRegistration, Cleanup]

  const CLEANUP: nat := 6

  /** `EOS04_MODE_LIMIT`. */
  function LastStage(mode: Mode): StageName
    requires mode != Unsupported
  {
    match mode
    case MetadataOnly => ProviderSearch
    case DownloadOnly => RawDownload
    case PrepareOnly => SceneValidation
    case FullPipeline => Cleanup
  }

  /** `STAGE_NAMES.index(name)`. */
  function Position(name: StageName): (k: nat)
    ensures k < |STAGE_NAMES| && STAGE_NAMES[k] == name
  {
    match name
    case ProviderSearch => 0
    case RawDownload => 1
    case PrepareScene => 2
    case SceneValidation => 3
    case ObjectStorage => 4
    case PgstacRegistration => 5
    case Cleanup => 6
  }

  /** The position of the last stage a mode runs. */
  function Limit(mode: Mode): nat
    requires mode != Unsupported
  {
    Position(LastStage(mode))
  }

  /** `_reaches`. */
  predicate Reaches(mode: Mode, stage: StageName)
    requires mode != Unsupported
  {
    Position(stage) <= Position(LastStage(mode))
  }

  /** What happens to a stage: its body returns or raises, or the worker dies before the stage,
      inside it, or after its failure was recorded but before the job's was. */
  datatype Event = Done | Raise | RaiseThenDie | DieBefore | DieInside

  datatype Faults = Faults(setupRaises: bool, stage: nat -> Event, diesAtEnd: bool)

  datatype Outcome =
    | Finished
    | AlreadyCompleted
    | UnsupportedMode
    | JobNotFound
    | SetupFailed
    | StageFailed(name: StageName)
    | StageRefused(name: StageName)
    | WorkerDied

  datatype World = World(store: JobStore.Store, stages: seq<Stage>)

  predicate HasJob(w: World, job: JobId) { job in w.store.jobs }

  function JobStatus(w: World, job: JobId): JobProtocol.Status
    requires HasJob(w, job)
  {
    w.store.jobs[job].status
  }

  function SetJob(w: World, job: JobId, status: JobProtocol.Status): (w': World)
    requires HasJob(w, job)
    ensures HasJob(w', job) && w'.stages == w.stages && JobStatus(w', job) == status
  {
    w.(store := JobStore.MarkStatus(w.store, job, status))
  }

  /** `with self._stage(job, name)` around a body: the stages afterwards, and how it was left. */
  datatype Flow = Through | Threw(outcome: Outcome) | Dead

  function StageBlock(ss: seq<Stage>, job: JobId, name: StageName, event: Event): (seq<Stage>, Flow) {
    if event == DieBefore then (ss, Dead) else
      match StartIn(ss, job, name)
      case None => (ss, Threw(StageRefused(name)))
      case Some(started) =>
        if event == Raise then (FailIn(started, |ss|, "eos04_stage_failed"), Threw(StageFailed(name)))
        else if event == RaiseThenDie then (FailIn(started, |ss|, "eos04_stage_failed"), Dead)
        else if event == DieInside then (started, Dead)
        else (CompleteIn(started, |ss|), Through)
  }

  /** The stages from `k` to `limit`, then the completion of the job. */
  function RunFrom(w: World, job: JobId, k: nat, limit: nat, faults: Faults): (World, Outcome)
    requires HasJob(w, job) && k <= limit + 1 && limit <= CLEANUP
    decreases limit + 1 - k
  {
    if k > limit then
      if faults.diesAtEnd then (w, WorkerDied) else (SetJob(w, job, JobProtocol.Completed), Finished)
    else
      var (ss, flow) := StageBlock(w.stages, job, STAGE_NAMES[k], faults.stage(k));
      var w1 := w.(stages := ss);
      match flow
      case Through => RunFrom(w1, job, k + 1, limit, faults)
      case Threw(outcome) => (SetJob(w1, job, JobProtocol.Failed), outcome)
      case Dead => (w1, WorkerDied)
  }

  function Execute(w: World, job: JobId, mode: Mode, faults: Faults): (World, Outcome) {
    if mode == Unsupported then (w, UnsupportedMode)
    else if !HasJob(w, job) then (w, JobNotFound)
    else if JobStatus(w, job) == JobProtocol.Completed then (w, AlreadyCompleted)
    else
      var w1 := SetJob(w, job, JobProtocol.Running);
      if faults.setupRaises then (SetJob(w1, job, JobProtocol.Failed), SetupFailed)
      else RunFrom(w1, job, 0, Limit(mode), faults)
  }

  function Lost(s: Stage): Stage {
    if s.status == Running then s.(status := Failed, errorCode := Some("worker_lost")) else s
  }

  /** Every running stage of the job, under whatever name, becomes failed. */
  function FailRunning(ss: seq<Stage>, job: JobId): (r: seq<Stage>)
    ensures |r| == |ss| && forall i | 0 <= i < |ss| :: r[i] == if ss[i].job == job then Lost(ss[i]) else ss[i]
  {
    seq(|ss|, i requires 0 <= i < |ss| => if ss[i].job == job then Lost(ss[i]) else ss[i])
  }

  /** `recover_worker_lost`: the job is queued again whatever its status was. */
  function Recover(w: World, job: JobId): World {
    if HasJob(w, job) then SetJob(w.(stages := FailRunning(w.stages, job)), job, JobProtocol.Queued) else w
  }

  function FailAll(ss: seq<Stage>, ids: set<nat>): (r: seq<Stage>)
    ensures |r| == |ss| && forall i | 0 <= i < |ss| :: r[i] == if i in ids then Lost(ss[i]) else ss[i]
  {
    seq(|ss|, i requires 0 <= i < |ss| => if i in ids then Lost(ss[i]) else ss[i])
  }

  function Ids(entries: seq<Entry>): set<nat> { set e | e in entries :: e.id }

  /** The records that the recovery loop has come to after `n` turns: it goes by stage name and attempt. */
  function Reached(ss: seq<Stage>, job: JobId, n: nat): set<nat> { Ids(Take(ListForJob(ss, job), n)) }

  /** A worker that dies inside `recover_worker_lost`, after `n` turns of its loop: the running stages it
      came to have become failed, the job has not been queued. */
  function RecoverInPart(w: World, job: JobId, n: nat): World {
    if HasJob(w, job) then w.(stages := FailAll(w.stages, Reached(w.stages, job, n))) else w
  }

  lemma ReachedIsOwn(ss: seq<Stage>, job: JobId, n: nat)
    ensures forall i | i in Reached(ss, job, n) :: i < |ss| && ss[i].job == job
    ensures n >= |ListForJob(ss, job)| ==> forall i: nat | i < |ss| && ss[i].job == job :: i in Reached(ss, job, n)
  {
    hide ListForJob;
    ListForJobIs(ss, job);
    var listed := ListForJob(ss, job);
    assert forall e | e in Take(listed, n) :: e in listed;
    if n >= |listed| {
      forall i: nat | i < |ss| && ss[i].job == job ensures i in Reached(ss, job, n) {
        assert Entry(i, ss[i]) in Take(listed, n);
      }
    }
  }

  /** A loop that comes to every listed stage fails every running one of the job. */
  lemma WholeLoopFailsAll(ss: seq<Stage>, job: JobId, n: nat)
    requires n >= |ListForJob(ss, job)|
    ensures FailAll(ss, Reached(ss, job, n)) == FailRunning(ss, job)
  {
    hide Reached;
    ReachedIsOwn(ss, job, n);
  }

  /** A delivered task: it runs the pipeline, and recovers first if it is redelivered. */
  datatype Delivery = Delivery(job: JobId, mode: Mode, faults: Faults, redelivered: bool)

  function Deliver(w: World, d: Delivery): (World, Outcome) {
    Execute(if d.redelivered then Recover(w, d.job) else w, d.job, d.mode, d.faults)
  }

  /** What can happen to the stores: a delivery, a redelivery whose worker dies while it recovers, and
      the submission of a job. */
  datatype Happening = Task(delivery: Delivery) | LostRecovery(job: JobId, reached: nat) | Submit(key: string)

  function Happen(w: World, h: Happening): World {
    match h
    case Task(d) => Deliver(w, d).0
    case LostRecovery(job, reached) => RecoverInPart(w, job, reached)
    case Submit(key) => w.(store := JobStore.AnswerCall(w.store, key).0)
  }

  function History(w: World, hs: seq<Happening>): World {
    if |hs| == 0 then w else Happen(History(w, hs[..|hs| - 1]), hs[|hs| - 1])
  }

  // ---- Numbering and exclusion, over every history ----

  lemma StageBlockKeepsInv(ss: seq<Stage>, job: JobId, name: StageName, event: Event)
    requires StageStore.Inv(ss)
    ensures StageStore.Inv(StageBlock(ss, job, name, event).0)
  {
    if !SomeRunning(ss, job, name) {
      StartKeepsInv(ss, job, name);
      var started := ss + [Started(ss, job, name)];
      EndingKeepsInv(started, CompleteIn(started, |ss|));
      EndingKeepsInv(started, FailIn(started, |ss|, "eos04_stage_failed"));
    }
  }

  lemma {:induction false} RunKeepsInv(w: World, job: JobId, k: nat, limit: nat, faults: Faults)
    requires HasJob(w, job) && k <= limit + 1 && limit <= CLEANUP && StageStore.Inv(w.stages)
    ensures StageStore.Inv(RunFrom(w, job, k, limit, faults).0.stages)
    decreases limit + 1 - k
  {
    if k <= limit {
      StageBlockKeepsInv(w.stages, job, STAGE_NAMES[k], faults.stage(k));
      var (ss, flow) := StageBlock(w.stages, job, STAGE_NAMES[k], faults.stage(k));
      if flow.Through? {
        RunKeepsInv(w.(stages := ss), job, k + 1, limit, faults);
      }
    }
  }

  lemma DeliveryKeepsInv(w: World, d: Delivery)
    requires StageStore.Inv(w.stages)
    ensures StageStore.Inv(Deliver(w, d).0.stages)
  {
    hide StageStore.Inv, RunFrom;
    EndingKeepsInv(w.stages, FailRunning(w.stages, d.job));
    var from := if d.redelivered then Recover(w, d.job) else w;
    if HasJob(from, d.job) && d.mode != Unsupported {
      RunKeepsInv(SetJob(from, d.job, JobProtocol.Running), d.job, 0, Limit(d.mode), d.faults);
    }
  }

  lemma PartKeepsInv(w: World, job: JobId, reached: nat)
    requires StageStore.Inv(w.stages)
    ensures StageStore.Inv(RecoverInPart(w, job, reached).stages)
  {
    hide StageStore.Inv, Reached;
    EndingKeepsInv(w.stages, FailAll(w.stages, Reached(w.stages, job, reached)));
  }

  /** Whatever is submitted, runs, fails, dies and is recovered in whole or in part, every job's
      attempts of every stage stay numbered 1, 2, .. and at most the latest of them is running. */
  lemma {:induction false} HistoryKeepsInv(w: World, hs: seq<Happening>)
    requires StageStore.Inv(w.stages)
    ensures StageStore.Inv(History(w, hs).stages)
  {
    hide StageStore.Inv, Deliver, RecoverInPart;
    if |hs| > 0 {
      var before := History(w, hs[..|hs| - 1]);
      HistoryKeepsInv(w, hs[..|hs| - 1]);
      match hs[|hs| - 1] {
        case Task(d) => DeliveryKeepsInv(before, d);
        case LostRecovery(job, reached) => PartKeepsInv(before, job, reached);
        case Submit(_) =>
      }
    }
  }

  // ---- One run ----

  ghost predicate NoneRunning(ss: seq<Stage>, job: JobId) {
    forall i | 0 <= i < |ss| && ss[i].job == job :: ss[i].status != Running
  }

  /** The records a run added: the stage list from `k` on, each once and in order, completed
      except perhaps the last. */
  ghost predicate AddsPrefix(before: seq<Stage>, after: seq<Stage>, job: JobId, k: nat, limit: nat)
    requires limit <= CLEANUP && k <= limit + 1
  {
    && |before| <= |after| <= |before| + limit + 1 - k
    && after[..|before|] == before
    && AllAddedAs(after, |before|, job, k - |before|)
  }

  ghost predicate AllAddedAs(after: seq<Stage>, from: nat, job: JobId, offset: int) {
    forall i | from <= i < |after| :: AddedAs(after, i, job, offset)
  }

  /** Record `i` is the stage at `i + offset` of the stage list. */
  ghost predicate AddedAs(after: seq<Stage>, i: nat, job: JobId, offset: int)
    requires i < |after|
  {
    && 0 <= i + offset <= CLEANUP
    && Same(after[i], job, STAGE_NAMES[i + offset])
    && (i < |after| - 1 ==> after[i].status == Completed)
  }

  /** How a run that met no running stage may end. */
  ghost predicate EndsProperly(before: World, after: World, job: JobId, k: nat, limit: nat, outcome: Outcome)
    requires limit <= CLEANUP && k <= limit + 1
  {
    && HasJob(after, job)
    && |before.stages| <= |after.stages|
    && match outcome
       case Finished =>
         && NoneRunning(after.stages, job)
         && JobStatus(after, job) == JobProtocol.Completed
         && |after.stages| == |before.stages| + limit + 1 - k
         && (k <= limit ==> after.stages[|after.stages| - 1].status == Completed)
       case StageFailed(name) =>
         && NoneRunning(after.stages, job)
         && JobStatus(after, job) == JobProtocol.Failed
         && |after.stages| > |before.stages|
         && after.stages[|after.stages| - 1].name == name
         && after.stages[|after.stages| - 1].status == Failed
       case WorkerDied => true
       case _ => false
  }

  lemma BlockAdds(ss: seq<Stage>, job: JobId, name: StageName, event: Event)
    requires NoneRunning(ss, job)
    ensures var (after, flow) := StageBlock(ss, job, name, event);
            && flow != Threw(StageRefused(name))
            && (after == ss || (|after| == |ss| + 1 && after[..|ss|] == ss && Same(after[|ss|], job, name)))
            && (flow.Through? ==> |after| > |ss| && after[|ss|].status == Completed)
            && (flow.Threw? ==> flow == Threw(StageFailed(name)) && |after| > |ss| && after[|ss|].status == Failed)
            && (flow.Through? || flow.Threw? ==> NoneRunning(after, job))
  {
    assert !SomeRunning(ss, job, name);
    var after := StageBlock(ss, job, name, event).0;
    if |after| > |ss| {
      assert forall i | 0 <= i < |ss| :: after[i] == ss[i];
    }
  }

  lemma AddsOneMore(before: seq<Stage>, mid: seq<Stage>, after: seq<Stage>, job: JobId, k: nat, limit: nat)
    requires limit <= CLEANUP && k <= limit
    requires |mid| == |before| + 1 && mid[..|before|] == before
    requires Same(mid[|before|], job, STAGE_NAMES[k]) && mid[|before|].status == Completed
    requires AddsPrefix(mid, after, job, k + 1, limit)
    ensures AddsPrefix(before, after, job, k, limit)
  {
  }

  lemma AddsAtMostOne(before: seq<Stage>, after: seq<Stage>, job: JobId, k: nat, limit: nat)
    requires limit <= CLEANUP && k <= limit + 1
    requires after == before || (k <= limit && |after| == |before| + 1 && after[..|before|] == before
                                 && Same(after[|before|], job, STAGE_NAMES[k]))
    ensures AddsPrefix(before, after, job, k, limit)
  {
  }

  lemma {:induction false} RunAddsPrefix(w: World, job: JobId, k: nat, limit: nat, faults: Faults)
    requires HasJob(w, job) && k <= limit + 1 && limit <= CLEANUP && NoneRunning(w.stages, job)
    ensures AddsPrefix(w.stages, RunFrom(w, job, k, limit, faults).0.stages, job, k, limit)
    decreases limit + 1 - k
  {
    if k > limit {
      AddsAtMostOne(w.stages, w.stages, job, k, limit);
    } else {
      var (ss, flow) := StageBlock(w.stages, job, STAGE_NAMES[k], faults.stage(k));
      BlockAdds(w.stages, job, STAGE_NAMES[k], faults.stage(k));
      if flow.Through? {
        RunAddsPrefix(w.(stages := ss), job, k + 1, limit, faults);
        AddsOneMore(w.stages, ss, RunFrom(w, job, k, limit, faults).0.stages, job, k, limit);
      } else {
        AddsAtMostOne(w.stages, ss, job, k, limit);
      }
    }
  }

  /** A run that starts with no running stage of its job is never refused, starts the stage list
      from the front, and unless the worker dies leaves no stage running and the job completed,
      exactly at the mode's limit, or failed, at the stage that raised. */
  lemma {:induction false} RunEndsProperly(w: World, job: JobId, k: nat, limit: nat, faults: Faults)
    requires HasJob(w, job) && k <= limit + 1 && limit <= CLEANUP && NoneRunning(w.stages, job)
    ensures var (w', outcome) := RunFrom(w, job, k, limit, faults);
            AddsPrefix(w.stages, w'.stages, job, k, limit) && EndsProperly(w, w', job, k, limit, outcome)
    decreases limit + 1 - k
  {
    RunAddsPrefix(w, job, k, limit, faults);
    if k <= limit {
      var (ss, flow) := StageBlock(w.stages, job, STAGE_NAMES[k], faults.stage(k));
      BlockAdds(w.stages, job, STAGE_NAMES[k], faults.stage(k));
      if flow.Through? {
        RunEndsProperly(w.(stages := ss), job, k + 1, limit, faults);
      }
    }
  }

  /** The same for a whole delivery: after a redelivered task's recovery, or with nothing left
      running, the delivered job is known, not completed, and its mode supported. */
  lemma DeliveryEndsProperly(w: World, d: Delivery)
    requires HasJob(w, d.job) && d.mode != Unsupported
    requires d.redelivered || (NoneRunning(w.stages, d.job) && JobStatus(w, d.job) != JobProtocol.Completed)
    ensures var from := if d.redelivered then Recover(w, d.job) else w;
            var (w', outcome) := Deliver(w, d);
            && AddsPrefix(from.stages, w'.stages, d.job, 0, Limit(d.mode))
            && if d.faults.setupRaises
               then outcome == SetupFailed && JobStatus(w', d.job) == JobProtocol.Failed && w'.stages == from.stages
               else EndsProperly(from, w', d.job, 0, Limit(d.mode), outcome)
  {
    var from := if d.redelivered then Recover(w, d.job) else w;
    RunEndsProperly(SetJob(from, d.job, JobProtocol.Running), d.job, 0, Limit(d.mode), d.faults);
    assert from.stages[..|from.stages|] == from.stages;
  }

  // ---- What a dead worker leaves behind ----

  /** A healthy run is refused exactly when a stage it reaches is still running, and at the first
      such stage: `first` is that stage, or lies past the limit when there is none. */
  lemma {:induction false} RefusedAtFirstRunningStage(w: World, job: JobId, k: nat, limit: nat, faults: Faults,
                                                      first: nat)
    requires HasJob(w, job) && k <= first <= limit + 1 && limit <= CLEANUP
    requires !faults.diesAtEnd && forall i: nat :: faults.stage(i) == Done
    requires forall j | k <= j < first :: !SomeRunning(w.stages, job, STAGE_NAMES[j])
    requires first <= limit ==> SomeRunning(w.stages, job, STAGE_NAMES[first])
    ensures RunFrom(w, job, k, limit, faults).1
            == if first <= limit then StageRefused(STAGE_NAMES[first]) else Finished
    decreases limit + 1 - k
  {
    hide StageBlock, SomeRunning;
    if k <= limit {
      HealthyBlock(w.stages, job, STAGE_NAMES[k]);
      assert faults.stage(k) == Done;
    }
    if k < first {
      var ss := StageBlock(w.stages, job, STAGE_NAMES[k], Done).0;
      RefusedAtFirstRunningStage(w.(stages := ss), job, k + 1, limit, faults, first);
    }
  }

  /** A stage whose body returns is refused when it is running already, and else leaves behind what
      ran before it. */
  lemma HealthyBlock(ss: seq<Stage>, job: JobId, stage: StageName)
    ensures var (after, flow) := StageBlock(ss, job, stage, Done);
            && flow == (if SomeRunning(ss, job, stage) then Threw(StageRefused(stage)) else Through)
            && forall name :: SomeRunning(after, job, name) <==> SomeRunning(ss, job, name)
  {
    hide SomeRunning;
    forall name ensures var after := CompleteIn(ss + [Started(ss, job, stage)], |ss|);
                        SomeRunning(after, job, name) <==> SomeRunning(ss, job, name) {
      CompletedAddsNoRunning(ss, job, stage, name);
    }
  }

  lemma CompletedAddsNoRunning(ss: seq<Stage>, job: JobId, started: StageName, name: StageName)
    ensures var after := CompleteIn(ss + [Started(ss, job, started)], |ss|);
            SomeRunning(after, job, name) <==> SomeRunning(ss, job, name)
  {
    var after := CompleteIn(ss + [Started(ss, job, started)], |ss|);
    assert forall i | 0 <= i < |ss| :: after[i] == ss[i];
    if i :| 0 <= i < |ss| && IsRunning(ss[i], job, name) {
      assert IsRunning(after[i], job, name);
    }
  }

  ghost predicate LeftRunning(ss: seq<Stage>, i: nat, job: JobId, name: StageName) {
    i < |ss| && IsRunning(ss[i], job, name)
  }

  lemma BlockKeepsLeftRunning(ss: seq<Stage>, job: JobId, stage: StageName, event: Event, i: nat, owner: JobId,
                              name: StageName)
    requires LeftRunning(ss, i, owner, name)
    ensures LeftRunning(StageBlock(ss, job, stage, event).0, i, owner, name)
    ensures StageBlock(ss, job, stage, event).1.Through? && owner == job ==> stage != name
    ensures StageBlock(ss, job, stage, event).1 != Threw(Finished)
  {
    assert SomeRunning(ss, owner, name);
  }

  lemma {:induction false} RunKeepsLeftRunning(w: World, job: JobId, k: nat, limit: nat, faults: Faults, i: nat,
                                               owner: JobId, name: StageName)
    requires HasJob(w, job) && k <= limit + 1 && limit <= CLEANUP && LeftRunning(w.stages, i, owner, name)
    ensures LeftRunning(RunFrom(w, job, k, limit, faults).0.stages, i, owner, name)
    ensures owner == job && (exists j | k <= j <= limit :: STAGE_NAMES[j] == name) ==>
              RunFrom(w, job, k, limit, faults).1 != Finished
    decreases limit + 1 - k
  {
    hide StageBlock, LeftRunning;
    if k <= limit {
      BlockKeepsLeftRunning(w.stages, job, STAGE_NAMES[k], faults.stage(k), i, owner, name);
      var (ss, flow) := StageBlock(w.stages, job, STAGE_NAMES[k], faults.stage(k));
      if flow.Through? {
        RunKeepsLeftRunning(w.(stages := ss), job, k + 1, limit, faults, i, owner, name);
      }
    }
  }

  lemma DeliveryKeepsLeftRunning(w: World, d: Delivery, i: nat, job: JobId, name: StageName)
    requires LeftRunning(w.stages, i, job, name) && (d.job == job ==> !d.redelivered)
    ensures LeftRunning(Deliver(w, d).0.stages, i, job, name)
    ensures d.job == job && d.mode != Unsupported && (exists j | 0 <= j <= Limit(d.mode) :: STAGE_NAMES[j] == name) ==>
              Deliver(w, d).1 != Finished
  {
    hide RunFrom;
    var from := if d.redelivered then Recover(w, d.job) else w;
    assert LeftRunning(from.stages, i, job, name);
    if HasJob(from, d.job) && d.mode != Unsupported {
      RunKeepsLeftRunning(SetJob(from, d.job, JobProtocol.Running), d.job, 0, Limit(d.mode), d.faults, i, job, name);
    }
  }

  /** No recovery in the history comes to record `i` of the job: none is whole, and those cut short end
      before it. */
  ghost predicate NotReached(w: World, hs: seq<Happening>, i: nat, job: JobId) {
    forall n | 0 <= n < |hs| ::
      && (hs[n].Task? && hs[n].delivery.job == job ==> !hs[n].delivery.redelivered)
      && (hs[n].LostRecovery? && hs[n].job == job ==>
            i !in Reached(History(w, hs[..n]).stages, job, hs[n].reached))
  }

  /** Until a recovery gets to it, a stage left running stays so and no delivery that reaches it finishes,
      however many there are. */
  lemma {:induction false} BlockedUntilRecovery(w: World, hs: seq<Happening>, i: nat, job: JobId, name: StageName)
    requires LeftRunning(w.stages, i, job, name) && NotReached(w, hs, i, job)
    ensures LeftRunning(History(w, hs).stages, i, job, name)
    ensures forall d: Delivery | d.job == job && !d.redelivered && d.mode != Unsupported
                                 && exists j | 0 <= j <= Limit(d.mode) :: STAGE_NAMES[j] == name ::
              Deliver(History(w, hs), d).1 != Finished
  {
    hide Deliver, LeftRunning, FailRunning, Reached, RecoverInPart;
    if |hs| > 0 {
      var before := History(w, hs[..|hs| - 1]);
      var last := hs[|hs| - 1];
      NotReachedBefore(w, hs, i, job);
      BlockedUntilRecovery(w, hs[..|hs| - 1], i, job, name);
      match last {
        case Task(d) => DeliveryKeepsLeftRunning(before, d, i, job, name);
        case LostRecovery(other, reached) => PartKeepsLeftRunning(before, other, reached, i, job, name);
        case Submit(_) =>
      }
    }
    var end := History(w, hs);
    forall d: Delivery | d.job == job && !d.redelivered && d.mode != Unsupported
                         && exists j | 0 <= j <= Limit(d.mode) :: STAGE_NAMES[j] == name
      ensures Deliver(end, d).1 != Finished
    {
      DeliveryKeepsLeftRunning(end, d, i, job, name);
    }
  }

  lemma NotReachedBefore(w: World, hs: seq<Happening>, i: nat, job: JobId)
    requires |hs| > 0 && NotReached(w, hs, i, job)
    ensures NotReached(w, hs[..|hs| - 1], i, job)
  {
    hide History, Reached;
    forall n | 0 <= n < |hs| - 1 ensures hs[..|hs| - 1][..n] == hs[..n] {}
  }

  lemma PartKeepsLeftRunning(w: World, other: JobId, reached: nat, i: nat, job: JobId, name: StageName)
    requires LeftRunning(w.stages, i, job, name) && (other == job ==> i !in Reached(w.stages, job, reached))
    ensures LeftRunning(RecoverInPart(w, other, reached).stages, i, job, name)
  {
    hide Reached;
    ReachedIsOwn(w.stages, other, reached);
  }

  /** A recovery that was cut short is made good by the next redelivery: it leaves the stages and the
      status that an undisturbed recovery would have left. */
  lemma RecoveryAfterPart(w: World, job: JobId, reached: nat)
    ensures var again := Recover(RecoverInPart(w, job, reached), job);
            again.stages == Recover(w, job).stages && again.store == Recover(w, job).store
  {
    hide Reached;
    var part := FailAll(w.stages, Reached(w.stages, job, reached));
    ReachedIsOwn(w.stages, job, reached);
    assert HasJob(w, job) ==> FailRunning(part, job) == FailRunning(w.stages, job);
  }

  /** Recovery has no status guard: a redelivered task of a job that already completed queues it
      again and runs every stage once more, where a plain delivery changes nothing. */
  lemma RedeliveryRepeatsCompletedJob(w: World, d: Delivery)
    requires StageStore.Inv(w.stages) && HasJob(w, d.job) && JobStatus(w, d.job) == JobProtocol.Completed
    requires d.mode != Unsupported && !d.faults.setupRaises && !d.faults.diesAtEnd
    requires forall i: nat :: d.faults.stage(i) == Done
    ensures !d.redelivered ==> Deliver(w, d) == (w, AlreadyCompleted)
    ensures d.redelivered ==>
              var (w', outcome) := Deliver(w, d);
              && outcome == Finished && |w'.stages| == |w.stages| + Limit(d.mode) + 1
              && AddsPrefix(FailRunning(w.stages, d.job), w'.stages, d.job, 0, Limit(d.mode))
  {
    if d.redelivered {
      DeliveryEndsProperly(w, d);
      var from := SetJob(Recover(w, d.job), d.job, JobProtocol.Running);
      RefusedAtFirstRunningStage(from, d.job, 0, Limit(d.mode), d.faults, Limit(d.mode) + 1);
    }
  }
}
