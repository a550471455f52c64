/** The EOS-04 service itself, over the two in-memory stores: the straight-line pipeline body with
    its early returns, proved to be the staged run of StagePipeline. */
module Eos04Service {
  import opened Wrappers
  import opened Sequences
  import JobProtocol
  import opened JobStore
  import opened StageStore
  import opened StagePipeline

  class Eos04IngestionService {
    const jobStore: InMemoryJobStore
    const stageStore: InMemoryStageStore

    constructor (jobStore: InMemoryJobStore, stageStore: InMemoryStageStore)
      ensures this.jobStore == jobStore && this.stageStore == stageStore
    {
      this.jobStore, this.stageStore := jobStore, stageStore;
    }

    ghost predicate Valid()
      reads this, jobStore, jobStore.jobs.Values, stageStore
    {
      jobStore.Valid() && stageStore.Valid()
    }

    ghost function Now(): World
      requires Valid()
      reads this, jobStore, jobStore.jobs.Values, stageStore, stageStore.objects
    {
      World(jobStore.Model(), stageStore.Contents())
    }

    /** `with self._stage(job, name): ..`; an exception or a death is reported to the caller. */
    method RunStage(job: JobId, name: StageName, event: Event) returns (flow: Flow)
      requires Valid()
      modifies stageStore, stageStore.objects
      ensures Valid() && fresh(stageStore.objects - old(stageStore.objects))
      ensures (stageStore.Contents(), flow) == StageBlock(old(stageStore.Contents()), job, name, event)
    {
      if event == DieBefore {
        return Dead;
      }
      ghost var before := stageStore.Contents();
      var started := stageStore.StartStage(job, name);
      if started.Err? {
        return Threw(StageRefused(name));
      }
      var id := started.value;
      if event == Raise || event == RaiseThenDie {
        stageStore.MarkFailed(id, "eos04_stage_failed");
        flow := if event == Raise then Threw(StageFailed(name)) else Dead;
      } else if event == DieInside {
        flow := Dead;
      } else {
        stageStore.MarkCompleted(id);
        flow := Through;
      }
    }

    /** The `except` clause around the pipeline body. */
    method Leave(job: JobRecord, flow: Flow) returns (outcome: Outcome)
      requires Valid() && job in jobStore.jobs.Values && !flow.Through?
      modifies jobStore, job
      ensures Valid() && jobStore.jobs == old(jobStore.jobs)
      ensures flow.Dead? ==> outcome == WorkerDied && jobStore.Model() == old(jobStore.Model())
      ensures flow.Threw? ==> outcome == flow.outcome
      ensures flow.Threw? ==> jobStore.Model() == MarkStatus(old(jobStore.Model()), job.id, JobProtocol.Failed)
    {
      match flow
      case Dead => outcome := WorkerDied;
      case Threw(raised) =>
        jobStore.MarkFailed(job, "stage failed");
        outcome := raised;
    }

    /** Going on from stage `k` now is what remains of the run that ends in `goal`. */
    ghost predicate Resumes(goal: (World, Outcome), job: JobRecord, k: nat, limit: nat, faults: Faults)
      reads this, jobStore, jobStore.jobs.Values, stageStore, stageStore.objects
    {
      && Valid() && job in jobStore.jobs.Values && k <= limit + 1 && limit <= CLEANUP
      && goal == RunFrom(Now(), job.id, k, limit, faults)
    }

    ghost predicate Ends(goal: (World, Outcome), outcome: Outcome)
      reads this, jobStore, jobStore.jobs.Values, stageStore, stageStore.objects
    {
      Valid() && goal == (Now(), outcome)
    }

    /** One stage block of the `try` body: either the body goes on to the next stage, or the run
        is over. */
    method StageOrLeave(job: JobRecord, name: StageName, k: nat, ghost limit: nat, faults: Faults,
                        ghost goal: (World, Outcome))
      returns (left: bool, outcome: Outcome)
      requires Resumes(goal, job, k, limit, faults) && k <= limit && name == STAGE_NAMES[k]
      modifies jobStore, job, stageStore, stageStore.objects
      ensures fresh(stageStore.objects - old(stageStore.objects))
      ensures if left then Ends(goal, outcome) else Resumes(goal, job, k + 1, limit, faults)
    {
      var flow := RunStage(job.id, name, faults.stage(k));
      left := !flow.Through?;
      if left {
        outcome := Leave(job, flow);
      } else {
        outcome := Finished;
      }
    }

    /** `_complete`. */
    method Complete(job: JobRecord, ghost limit: nat, faults: Faults, ghost goal: (World, Outcome))
      returns (outcome: Outcome)
      requires Resumes(goal, job, limit + 1, limit, faults)
      modifies job
      ensures Ends(goal, outcome)
    {
      ghost var before := Now();
      if faults.diesAtEnd {
        return WorkerDied;
      }
      jobStore.MarkCompleted(job, None, None);
      outcome := Finished;
      assert stageStore.Contents() == before.stages;
      assert Now() == SetJob(before, job.id, JobProtocol.Completed);
    }

    /** The `try` body: seven stage blocks and three early completions. */
    method RunStages(job: JobRecord, mode: Mode, faults: Faults, ghost goal: (World, Outcome))
      returns (outcome: Outcome)
      requires mode != Unsupported && Resumes(goal, job, 0, Limit(mode), faults)
      modifies jobStore, job, stageStore, stageStore.objects
      ensures Ends(goal, outcome)
    {
      hide Resumes, Ends;
      ghost var limit := Limit(mode);
      var left;
      left, outcome := StageOrLeave(job, ProviderSearch, 0, limit, faults, goal);
      if left { return; }
      if !Reaches(mode, RawDownload) {
        outcome := Complete(job, limit, faults, goal);
        return;
      }
      left, outcome := StageOrLeave(job, RawDownload, 1, limit, faults, goal);
      if left { return; }
      if !Reaches(mode, PrepareScene) {
        outcome := Complete(job, limit, faults, goal);
        return;
      }
      left, outcome := StageOrLeave(job, PrepareScene, 2, limit, faults, goal);
      if left { return; }
      left, outcome := StageOrLeave(job, SceneValidation, 3, limit, faults, goal);
      if left { return; }
      if !Reaches(mode, ObjectStorage) {
        outcome := Complete(job, limit, faults, goal);
        return;
      }
      outcome := RegisterStages(job, faults, goal);
    }

    /** The last three stage blocks, which only the full pipeline reaches. */
    method RegisterStages(job: JobRecord, faults: Faults, ghost goal: (World, Outcome)) returns (outcome: Outcome)
      requires Resumes(goal, job, 4, CLEANUP, faults)
      modifies jobStore, job, stageStore, stageStore.objects
      ensures Ends(goal, outcome)
    {
      hide Resumes, Ends;
      var left;
      left, outcome := StageOrLeave(job, ObjectStorage, 4, CLEANUP, faults, goal);
      if left { return; }
      left, outcome := StageOrLeave(job, PgstacRegistration, 5, CLEANUP, faults, goal);
      if left { return; }
      left, outcome := StageOrLeave(job, Cleanup, 6, CLEANUP, faults, goal);
      if left { return; }
      outcome := Complete(job, CLEANUP, faults, goal);
    }

    method ExecuteBackfill(jobId: JobId, mode: Mode, faults: Faults) returns (outcome: Outcome)
      requires Valid()
      modifies jobStore, jobStore.jobs.Values, stageStore, stageStore.objects
      ensures Valid()
      ensures (Now(), outcome) == Execute(old(Now()), jobId, mode, faults)
    {
      if mode == Unsupported {
        return UnsupportedMode;
      }
      if jobId !in jobStore.jobs {
        return JobNotFound;
      }
      var job := jobStore.jobs[jobId];
      assert HasJob(Now(), jobId) && JobStatus(Now(), jobId) == job.status;
      if job.status == JobProtocol.Completed {
        return AlreadyCompleted;
      }
      jobStore.MarkRunning(job);
      if faults.setupRaises {
        jobStore.MarkFailed(job, "setup failed");
        return SetupFailed;
      }
      outcome := RunStages(job, mode, faults, Execute(old(Now()), jobId, mode, faults));
    }

    /** The loop of `recover_worker_lost` over the listed records, up to the first `n` of them. */
    method FailStages(listed: seq<Entry>, n: nat)
      requires stageStore.Valid() && n <= |listed|
      requires forall e | e in listed :: e.id < |stageStore.stages|
      modifies stageStore.objects
      ensures stageStore.Valid()
      ensures stageStore.Contents() == FailAll(old(stageStore.Contents()), Ids(listed[..n]))
    {
      ghost var before := stageStore.Contents();
      for k := 0 to n
        invariant stageStore.Valid() && |before| == |stageStore.stages|
        invariant stageStore.Contents() == FailAll(before, Ids(listed[..k]))
      {
        var id := listed[k].id;
        IdsGrow(listed, k);
        if stageStore.stages[id].status == Running {
          stageStore.MarkFailed(id, "worker_lost");
        }
        assert stageStore.Contents() == FailAll(before, Ids(listed[..k + 1]));
      }
    }

    /** Lists the stages of the job and fails the running ones, all or the first `diesAt` of the list. */
    method FailLost(jobId: JobId, diesAt: Option<nat>)
      requires stageStore.Valid()
      modifies stageStore.objects
      ensures stageStore.Valid()
      ensures var before := old(stageStore.Contents());
              stageStore.Contents() == match diesAt case None => FailRunning(before, jobId)
                                                    case Some(n) => FailAll(before, Reached(before, jobId, n))
    {
      hide FailRunning, FailAll, ListForJob;
      ghost var before := stageStore.Contents();
      var listed := stageStore.ListFor(jobId);
      ListForJobIs(before, jobId);
      var n := |listed|;
      if diesAt.Some? && diesAt.value < n {
        n := diesAt.value;
      }
      FailStages(listed, n);
      assert listed[..n] == Take(listed, if diesAt.Some? then diesAt.value else n);
      if diesAt.None? {
        WholeLoopFailsAll(before, jobId, n);
      }
    }

    /** `recover_worker_lost`, by a worker that may die after `diesAt` turns of its loop. */
    method RecoverWorkerLost(jobId: JobId, diesAt: Option<nat>)
      requires Valid() && jobId in jobStore.jobs
      modifies jobStore.jobs.Values, stageStore.objects
      ensures Valid()
      ensures Now() == match diesAt case None => Recover(old(Now()), jobId)
                                    case Some(n) => RecoverInPart(old(Now()), jobId, n)
    {
      hide FailRunning, FailAll, Reached;
      FailLost(jobId, diesAt);
      if diesAt.None? {
        jobStore.MarkQueued(jobStore.jobs[jobId]);
      }
    }
  }

  lemma IdsGrow(listed: seq<Entry>, k: nat)
    requires k < |listed|
    ensures Ids(listed[..k + 1]) == Ids(listed[..k]) + {listed[k].id}
  {
    assert listed[..k + 1] == listed[..k] + [listed[k]];
  }
}
