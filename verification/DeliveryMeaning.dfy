/** What a delivered EOS-04 task leaves in the stage store, stage by stage and by name. */
module DeliveryMeaning {
  import JobProtocol
  import opened StageStore
  import opened StagePipeline

  /** The store has grown by records of these stages of the job, in this order, and kept the rest. */
  ghost predicate Adds(before: seq<Stage>, after: seq<Stage>, job: JobId, names: seq<StageName>) {
    && |after| == |before| + |names| && after[..|before|] == before
    && forall i | |before| <= i < |after| :: after[i].job == job && after[i].name == names[i - |before|]
  }

  ghost predicate AllCompleted(before: seq<Stage>, after: seq<Stage>) {
    forall i | |before| <= i < |after| :: after[i].status == Completed
  }

  lemma BlockRecords(ss: seq<Stage>, job: JobId, name: StageName, event: Event)
    ensures var (after, flow) := StageBlock(ss, job, name, event);
            && (after == ss || Adds(ss, after, job, [name]))
            && (flow.Through? ==> Adds(ss, after, job, [name]) && AllCompleted(ss, after))
            && (flow.Threw? ==> flow.outcome != Finished)
  {
    var after := StageBlock(ss, job, name, event).0;
    if |after| > |ss| {
      assert forall i | 0 <= i < |ss| :: after[i] == ss[i];
    }
  }

  lemma AddsChain(a: seq<Stage>, b: seq<Stage>, c: seq<Stage>, job: JobId, name: StageName, names: seq<StageName>)
    requires Adds(a, b, job, [name]) && Adds(b, c, job, names)
    ensures Adds(a, c, job, [name] + names)
    ensures AllCompleted(a, b) && AllCompleted(b, c) ==> AllCompleted(a, c)
  {
    KeptByPrefix(b, c);
    assert c[..|a|] == b[..|a|];
    forall i | |a| <= i < |c| ensures c[i].job == job && c[i].name == ([name] + names)[i - |a|] {
      if i == |a| {
        assert c[i] == b[i];
      } else {
        assert c[i].name == names[i - |b|];
      }
    }
  }

  lemma KeptByPrefix(b: seq<Stage>, c: seq<Stage>)
    requires |b| <= |c| && c[..|b|] == b
    ensures forall i | 0 <= i < |b| :: c[i] == b[i]
  {
    forall i | 0 <= i < |b| ensures c[i] == b[i] {
      assert c[..|b|][i] == b[i];
    }
  }

  /** The stages at the positions `k` up to `n`. */
  function Stages(k: nat, n: nat): seq<StageName>
    requires k <= n <= CLEANUP + 1
  {
    STAGE_NAMES[k..n]
  }

  lemma StagesStep(k: nat, n: nat)
    requires k < n <= CLEANUP + 1
    ensures Stages(k, n) == [STAGE_NAMES[k]] + Stages(k + 1, n)
    ensures Stages(k, k + 1) == [STAGE_NAMES[k]] && Stages(k, k) == []
  {
  }

  /** A run adds some of the stages from `k` on, in order; one that finishes adds all up to the limit, each
      completed, and only such a run completes the job. */
  lemma {:induction false} RunRecords(w: World, job: JobId, k: nat, limit: nat, faults: Faults) returns (n: nat)
    requires HasJob(w, job) && JobStatus(w, job) == JobProtocol.Running && k <= limit + 1 && limit <= CLEANUP
    ensures var (after, outcome) := RunFrom(w, job, k, limit, faults);
            && k <= n <= limit + 1 && Adds(w.stages, after.stages, job, Stages(k, n))
            && (outcome == Finished ==> n == limit + 1 && AllCompleted(w.stages, after.stages))
            && HasJob(after, job) && (outcome == Finished <==> JobStatus(after, job) == JobProtocol.Completed)
    decreases limit + 1 - k
  {
    hide StageBlock, Adds, AllCompleted, Stages;
    n := k;
    NothingAdded(w.stages, job, k);
    if k <= limit {
      var name, event := STAGE_NAMES[k], faults.stage(k);
      var (ss, flow) := StageBlock(w.stages, job, name, event);
      BlockRecords(w.stages, job, name, event);
      if flow.Through? {
        n := RunRecords(w.(stages := ss), job, k + 1, limit, faults);
        AddsChain(w.stages, ss, RunFrom(w, job, k, limit, faults).0.stages, job, name, Stages(k + 1, n));
        StagesStep(k, n);
      } else if ss != w.stages {
        n := k + 1;
        StagesStep(k, n);
      }
    }
  }

  lemma NothingAdded(ss: seq<Stage>, job: JobId, k: nat)
    requires k <= CLEANUP + 1
    ensures Adds(ss, ss, job, Stages(k, k)) && AllCompleted(ss, ss)
  {
  }

  /** The stages of each mode. */
  ghost predicate AreStagesOf(mode: Mode, names: seq<StageName>) {
    match mode
    case MetadataOnly => names == [ProviderSearch]
    case DownloadOnly => names == [ProviderSearch, RawDownload]
    case PrepareOnly => names == [ProviderSearch, RawDownload, PrepareScene, SceneValidation]
    case FullPipeline =>
      names == [ProviderSearch, RawDownload, PrepareScene, SceneValidation, ObjectStorage, PgstacRegistration, Cleanup]
    case Unsupported => names == []
  }

  /** A delivery adds records of the first stages of its mode, in order, and completes the job exactly when it
      finishes: then it has added all of them, each completed. A redelivered one adds them to what recovery
      left. */
  lemma DeliveryRecords(w: World, d: Delivery, stages: seq<StageName>) returns (n: nat)
    requires HasJob(w, d.job) && AreStagesOf(d.mode, stages)
    ensures var from := if d.redelivered then Recover(w, d.job) else w;
            var (after, outcome) := Deliver(w, d);
            && HasJob(after, d.job) && n <= |stages| && Adds(from.stages, after.stages, d.job, stages[..n])
            && (outcome == Finished ==> n == |stages| && AllCompleted(from.stages, after.stages))
            && (outcome == Finished ==> JobStatus(after, d.job) == JobProtocol.Completed)
            && (JobStatus(after, d.job) == JobProtocol.Completed ==>
                  outcome in {Finished, AlreadyCompleted, UnsupportedMode})
  {
    hide RunFrom, FailRunning, Adds, AllCompleted, Stages, AreStagesOf;
    n := 0;
    var from := if d.redelivered then Recover(w, d.job) else w;
    NothingAdded(from.stages, d.job, 0);
    NoStages(stages);
    if d.mode != Unsupported && JobStatus(from, d.job) != JobProtocol.Completed && !d.faults.setupRaises {
      n := RunRecords(SetJob(from, d.job, JobProtocol.Running), d.job, 0, Limit(d.mode), d.faults);
      StagesOfMode(d.mode, stages, n);
    }
  }

  lemma NoStages(stages: seq<StageName>)
    ensures stages[..0] == Stages(0, 0)
  {
  }

  lemma StagesOfMode(mode: Mode, stages: seq<StageName>, n: nat)
    requires mode != Unsupported && AreStagesOf(mode, stages) && n <= Limit(mode) + 1
    ensures |stages| == Limit(mode) + 1 && stages[..n] == Stages(0, n)
    ensures forall j: nat | j <= Limit(mode) :: stages[j] == STAGE_NAMES[j]
  {
  }

  /** When a delivery finishes: it is healthy, and none of its mode's stages is left running. */
  lemma FinishesExactlyWhen(w: World, d: Delivery, stages: seq<StageName>)
    requires HasJob(w, d.job) && AreStagesOf(d.mode, stages) && d.mode != Unsupported
    requires !d.faults.setupRaises && !d.faults.diesAtEnd && forall i: nat :: d.faults.stage(i) == Done
    ensures Deliver(w, d).1 == Finished
            <==> d.redelivered || (&& JobStatus(w, d.job) != JobProtocol.Completed
                                   && forall name | name in stages :: !SomeRunning(w.stages, d.job, name))
  {
    hide RunFrom, FailRunning, SomeRunning, AreStagesOf;
    var from := if d.redelivered then Recover(w, d.job) else w;
    if d.redelivered {
      NoneRunningAfterRecovery(w, d.job);
    }
    StagesOfMode(d.mode, stages, 0);
    var first := FirstRunning(from.stages, d.job, Limit(d.mode));
    RefusedAtFirstRunningStage(SetJob(from, d.job, JobProtocol.Running), d.job, 0, Limit(d.mode), d.faults, first);
    if first <= Limit(d.mode) {
      assert stages[first] == STAGE_NAMES[first];
    } else {
      forall name | name in stages ensures !SomeRunning(from.stages, d.job, name) {
        var j :| 0 <= j < |stages| && stages[j] == name;
        assert STAGE_NAMES[j] == name;
      }
    }
  }

  lemma NoneRunningAfterRecovery(w: World, job: JobId)
    requires HasJob(w, job)
    ensures forall name :: !SomeRunning(Recover(w, job).stages, job, name)
  {
  }

  lemma FirstRunning(ss: seq<Stage>, job: JobId, limit: nat) returns (first: nat)
    requires limit <= CLEANUP
    ensures first <= limit + 1 && forall j | 0 <= j < first :: !SomeRunning(ss, job, STAGE_NAMES[j])
    ensures first <= limit ==> SomeRunning(ss, job, STAGE_NAMES[first])
  {
    hide SomeRunning;
    first := 0;
    while first <= limit && !SomeRunning(ss, job, STAGE_NAMES[first])
      invariant first <= limit + 1 && forall j | 0 <= j < first :: !SomeRunning(ss, job, STAGE_NAMES[j])
    {
      first := first + 1;
    }
  }
}
