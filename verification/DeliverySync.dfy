/** The pipeline over the in-memory job store: when a delivery leaves the store's index in step, and so
    its keys with one active job each. */
module DeliverySync {
  import opened JobProtocol
  import opened JobStore
  import S = StageStore
  import P = StagePipeline

  type World = P.World

  /** The store is in step but for job `id`, to which the index does not point. */
  ghost predicate OutOfIndex(m: Store, id: JobId) {
    && Consistent(m) && id in m.jobs
    && !(m.jobs[id].key in m.byKey && m.byKey[m.jobs[id].key] == id)
    && forall i | i in m.jobs && i != id ::
         Active(m.jobs[i].status) <==> m.jobs[i].key in m.byKey && m.byKey[m.jobs[i].key] == i
  }

  /** What marks of one job keep, by whether it was active before them. */
  ghost predicate Tracks(m: Store, id: JobId, wasActive: bool) {
    Consistent(m) && id in m.jobs && if wasActive then Synced(m) else OutOfIndex(m, id)
  }

  lemma TracksAtFirst(m: Store, id: JobId)
    requires Consistent(m) && Synced(m) && id in m.jobs
    ensures Tracks(m, id, Active(m.jobs[id].status))
  {
  }

  lemma TracksMeans(m: Store, id: JobId, wasActive: bool)
    requires Tracks(m, id, wasActive)
    ensures Synced(m) <==> wasActive || !Active(m.jobs[id].status)
  {
  }

  lemma MarkTracks(m: Store, id: JobId, status: Status, wasActive: bool)
    requires Tracks(m, id, wasActive) && (wasActive ==> Active(m.jobs[id].status))
    ensures Tracks(MarkStatus(m, id, status), id, wasActive)
    ensures MarkStatus(m, id, status).jobs[id].status == status
  {
    ApplyConsistent(m, Mark(id, status));
    if wasActive {
      SyncLostOnlyByRevival(m, Mark(id, status));
    }
  }

  /** The stages of a run leave the job store alone; at most its end marks the job, once. */
  lemma {:induction false} RunTracks(w: World, job: JobId, k: nat, limit: nat, faults: P.Faults, wasActive: bool)
    requires P.HasJob(w, job) && k <= limit + 1 && limit <= P.CLEANUP
    requires Tracks(w.store, job, wasActive) && Active(P.JobStatus(w, job))
    ensures Tracks(P.RunFrom(w, job, k, limit, faults).0.store, job, wasActive)
    decreases limit + 1 - k
  {
    hide Tracks, P.StageBlock;
    MarkTracks(w.store, job, Completed, wasActive);
    MarkTracks(w.store, job, Failed, wasActive);
    if k <= limit {
      var (ss, flow) := P.StageBlock(w.stages, job, P.STAGE_NAMES[k], faults.stage(k));
      if flow.Through? {
        RunTracks(w.(stages := ss), job, k + 1, limit, faults, wasActive);
      }
    }
  }

  lemma ExecuteTracks(w: World, job: JobId, mode: P.Mode, faults: P.Faults, wasActive: bool)
    requires P.HasJob(w, job) && Tracks(w.store, job, wasActive) && (wasActive ==> Active(P.JobStatus(w, job)))
    ensures Tracks(P.Execute(w, job, mode, faults).0.store, job, wasActive)
  {
    hide Tracks, P.RunFrom;
    if mode != P.Unsupported && P.JobStatus(w, job) != Completed {
      MarkTracks(w.store, job, Running, wasActive);
      var w1 := P.SetJob(w, job, Running);
      MarkTracks(w1.store, job, Failed, wasActive);
      RunTracks(w1, job, 0, P.Limit(mode), faults, wasActive);
    }
  }

  /** The delivery finds the job failed and leaves it active. */
  predicate RevivesJob(w: World, d: P.Delivery) {
    && P.HasJob(w, d.job) && P.HasJob(P.Deliver(w, d).0, d.job)
    && P.JobStatus(w, d.job) == Failed && P.JobStatus(P.Deliver(w, d).0, d.job) != Failed
  }

  /** A delivery puts the index out of step exactly when it finds its job failed and leaves it active. */
  lemma DeliveryLosesSyncExactlyWhen(w: World, d: P.Delivery)
    requires Consistent(w.store) && Synced(w.store)
    ensures Consistent(P.Deliver(w, d).0.store)
    ensures Synced(P.Deliver(w, d).0.store) <==> !RevivesJob(w, d)
  {
    hide Tracks, P.Execute, P.FailRunning;
    if P.HasJob(w, d.job) {
      var wasActive := Active(P.JobStatus(w, d.job));
      TracksAtFirst(w.store, d.job);
      MarkTracks(w.store, d.job, Queued, wasActive);
      ExecuteTracks(if d.redelivered then P.Recover(w, d.job) else w, d.job, d.mode, d.faults, wasActive);
      TracksIsConsistent(P.Deliver(w, d).0.store, d.job, wasActive);
      TracksMeans(P.Deliver(w, d).0.store, d.job, wasActive);
    } else {
      UnknownJob(w, d);
    }
  }

  lemma {:induction false} RunEnds(w: World, job: JobId, k: nat, limit: nat, faults: P.Faults)
    requires P.HasJob(w, job) && k <= limit + 1 && limit <= P.CLEANUP && P.JobStatus(w, job) == Running
    ensures var (after, outcome) := P.RunFrom(w, job, k, limit, faults);
            P.HasJob(after, job) && (P.JobStatus(after, job) == Failed <==> outcome !in {P.Finished, P.WorkerDied})
    decreases limit + 1 - k
  {
    hide P.StageBlock;
    if k <= limit {
      BlockThrows(w.stages, job, P.STAGE_NAMES[k], faults.stage(k));
      var (ss, flow) := P.StageBlock(w.stages, job, P.STAGE_NAMES[k], faults.stage(k));
      if flow.Through? {
        RunEnds(w.(stages := ss), job, k + 1, limit, faults);
      }
    }
  }

  lemma BlockThrows(ss: seq<S.Stage>, job: JobId, name: S.StageName, event: P.Event)
    ensures var flow := P.StageBlock(ss, job, name, event).1;
            flow.Threw? ==> flow.outcome !in {P.Finished, P.WorkerDied}
  {
  }

  /** So a delivery revives exactly a failed job that it finishes or dies with, or that it queues for a
      mode it does not know. */
  lemma RevivesExactlyWhen(w: World, d: P.Delivery)
    ensures RevivesJob(w, d)
            <==> P.HasJob(w, d.job) && P.JobStatus(w, d.job) == Failed
                 && if d.mode == P.Unsupported then d.redelivered else P.Deliver(w, d).1 in {P.Finished, P.WorkerDied}
  {
    hide P.RunFrom, P.FailRunning;
    var from := if d.redelivered then P.Recover(w, d.job) else w;
    if P.HasJob(w, d.job) && d.mode != P.Unsupported {
      RunEnds(P.SetJob(from, d.job, Running), d.job, 0, P.Limit(d.mode), d.faults);
    }
  }

  lemma TracksIsConsistent(m: Store, id: JobId, wasActive: bool)
    requires Tracks(m, id, wasActive)
    ensures Consistent(m) && id in m.jobs
  {
  }

  lemma UnknownJob(w: World, d: P.Delivery)
    requires !P.HasJob(w, d.job)
    ensures P.Deliver(w, d).0 == w
  {
  }

  ghost predicate NothingRevived(w: World, hs: seq<P.Happening>) {
    forall n | 0 <= n < |hs| && hs[n].Task? :: !RevivesJob(P.History(w, hs[..n]), hs[n].delivery)
  }

  /** Over any submissions, deliveries, deaths and recoveries each key keeps one active job, as long as no
      delivery finds its job failed and leaves it active. */
  lemma {:induction false} HistoryKeepsSync(w: World, hs: seq<P.Happening>)
    requires Consistent(w.store) && Synced(w.store) && NothingRevived(w, hs)
    ensures var after := P.History(w, hs).store;
            Consistent(after) && Synced(after) && OneActivePerKey(after.jobs)
  {
    hide Consistent, Synced, OneActivePerKey, RevivesJob, P.Deliver, P.FailAll, P.Reached;
    if |hs| > 0 {
      var n := |hs| - 1;
      forall i | 0 <= i < n ensures hs[..n][..i] == hs[..i] {}
      HistoryKeepsSync(w, hs[..n]);
      var before := P.History(w, hs[..n]);
      match hs[n] {
        case Task(d) => DeliveryLosesSyncExactlyWhen(before, d);
        case LostRecovery(_, _) =>
        case Submit(key) =>
          ApplyConsistent(before.store, Create(key));
          SyncLostOnlyByRevival(before.store, Create(key));
      }
    }
    SyncedMeansOneActive(P.History(w, hs).store);
  }
}
