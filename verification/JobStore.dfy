/** The in-memory job store: a jobs dictionary, an idempotency index, and Job objects that the
    mark methods update in place without looking at the status they overwrite. */
module JobStore {
  import opened Wrappers
  import opened JobProtocol

  /** The store as a value: what its two dictionaries hold, and the next unused id. */
  datatype Store = Store(jobs: Table, byKey: map<string, JobId>, next: JobId)

  datatype Op = Create(key: string) | Mark(id: JobId, status: Status)

  ghost predicate Consistent(m: Store) {
    && (forall id | id in m.jobs :: id < m.next)
    && (forall key | key in m.byKey :: m.byKey[key] in m.jobs && m.jobs[m.byKey[key]].key == key)
  }

  /** The index points at exactly the active jobs. */
  ghost predicate Synced(m: Store) {
    forall id | id in m.jobs ::
      Active(m.jobs[id].status) <==> m.jobs[id].key in m.byKey && m.byKey[m.jobs[id].key] == id
  }

  /** The job the index answers with: its entry, unless that job has failed. */
  function Existing(m: Store, key: string): Option<JobId> {
    if key in m.byKey && m.byKey[key] in m.jobs && m.jobs[m.byKey[key]].status != Failed
    then Some(m.byKey[key]) else None
  }

  function AnswerCall(m: Store, key: string): (Store, JobId, bool) {
    match Existing(m, key)
    case Some(id) => (m, id, false)
    case None =>
      (Store(m.jobs[m.next := Job(key, Queued)], m.byKey[key := m.next], m.next + 1), m.next, true)
  }

  function MarkStatus(m: Store, id: JobId, status: Status): Store
    requires id in m.jobs
  {
    var job := m.jobs[id];
    m.(jobs := m.jobs[id := job.(status := status)],
       byKey := if status == Failed && job.key in m.byKey && m.byKey[job.key] == id
                then m.byKey - {job.key} else m.byKey)
  }

  function Apply(m: Store, op: Op): Store {
    match op
    case Create(key) => AnswerCall(m, key).0
    case Mark(id, status) => if id in m.jobs then MarkStatus(m, id, status) else m
  }

  /** The one operation the index cannot follow: a failed job made active again. */
  predicate Revives(m: Store, op: Op) {
    op.Mark? && op.id in m.jobs && m.jobs[op.id].status == Failed && Active(op.status)
  }

  function Run(m: Store, ops: seq<Op>): Store {
    if |ops| == 0 then m else Apply(Run(m, ops[..|ops| - 1]), ops[|ops| - 1])
  }

  predicate NeverRevives(m: Store, ops: seq<Op>) {
    forall n | 0 <= n < |ops| :: !Revives(Run(m, ops[..n]), ops[n])
  }

  lemma ApplyConsistent(m: Store, op: Op)
    requires Consistent(m)
    ensures Consistent(Apply(m, op))
  {
  }

  /** From a synced store an operation leaves the index synced exactly when it revives no job. */
  lemma SyncLostOnlyByRevival(m: Store, op: Op)
    requires Consistent(m) && Synced(m)
    ensures Synced(Apply(m, op)) <==> !Revives(m, op)
  {
    var m' := Apply(m, op);
    if Revives(m, op) {
      assert m'.byKey == m.byKey && m'.jobs[op.id].key == m.jobs[op.id].key;
      assert Active(m'.jobs[op.id].status);
    } else if op.Create? && Existing(m, op.key).None? {
      forall id | id in m'.jobs
        ensures Active(m'.jobs[id].status) <==> m'.jobs[id].key in m'.byKey && m'.byKey[m'.jobs[id].key] == id
      {
        if id != m.next && m.jobs[id].key == op.key {
          assert !Active(m.jobs[id].status);
        }
      }
    }
  }

  lemma SyncedEntryIsActive(m: Store, key: string)
    requires Consistent(m) && Synced(m) && key in m.byKey
    ensures ActiveFor(m.jobs, key, m.byKey[key])
  {
  }

  lemma SyncedMeansOneActive(m: Store)
    requires Synced(m)
    ensures OneActivePerKey(m.jobs)
  {
  }

  /** A synced store answers exactly as the indivisible call of the SQL protocol does. */
  lemma CreateOrGetIsAtomic(m: Store, key: string)
    requires Consistent(m) && Synced(m)
    ensures var r := AnswerCall(m, key);
            AtomicCreateOrGet(m.jobs, key, r.1, r.2, r.0.jobs)
  {
  }

  /** Over any run that never revives a failed job the store meets the protocol's specification:
      one active job per key, and every call answers like the indivisible one. */
  lemma {:induction false} RunsWithoutRevival(m: Store, ops: seq<Op>, key: string)
    requires Consistent(m) && Synced(m) && NeverRevives(m, ops)
    ensures var end := Run(m, ops);
            && Consistent(end) && Synced(end) && OneActivePerKey(end.jobs)
            && var r := AnswerCall(end, key);
            AtomicCreateOrGet(end.jobs, key, r.1, r.2, r.0.jobs)
  {
    if |ops| > 0 {
      var front := ops[..|ops| - 1];
      forall n | 0 <= n < |front| ensures !Revives(Run(m, front[..n]), front[n]) {
        assert front[..n] == ops[..n];
      }
      RunsWithoutRevival(m, front, key);
      ApplyConsistent(Run(m, front), ops[|front|]);
      SyncLostOnlyByRevival(Run(m, front), ops[|front|]);
    }
    SyncedMeansOneActive(Run(m, ops));
    CreateOrGetIsAtomic(Run(m, ops), key);
  }

  /** Reviving a failed job hides it from its key: the next call creates a second active job. */
  lemma RevivedJobIsDuplicated(m: Store, id: JobId, status: Status)
    requires Consistent(m) && Synced(m) && Revives(m, Mark(id, status))
    requires forall i | i in m.jobs && m.jobs[i].key == m.jobs[id].key :: !Active(m.jobs[i].status)
    ensures var revived := Apply(m, Mark(id, status));
            var r := AnswerCall(revived, m.jobs[id].key);
            r.2 && r.1 != id && !OneActivePerKey(r.0.jobs)
  {
    var key := m.jobs[id].key;
    var revived := Apply(m, Mark(id, status));
    if key in m.byKey {
      SyncedEntryIsActive(m, key);
      assert false;
    }
    var r := AnswerCall(revived, key);
    assert ActiveFor(r.0.jobs, key, id) && ActiveFor(r.0.jobs, key, r.1);
  }

  /** Exactly when a status update can lead to two active jobs of one key, at once or with the next
      call: when it revives a failed job. */
  lemma DuplicatesExactlyByRevival(m: Store, id: JobId, status: Status)
    requires Consistent(m) && Synced(m) && id in m.jobs
    ensures var a := Apply(m, Mark(id, status));
            OneActivePerKey(a.jobs) && OneActivePerKey(AnswerCall(a, m.jobs[id].key).0.jobs)
            <==> !Revives(m, Mark(id, status))
  {
    var op, key := Mark(id, status), m.jobs[id].key;
    var a := Apply(m, op);
    ApplyConsistent(m, op);
    SyncLostOnlyByRevival(m, op);
    if !Revives(m, op) {
      SyncedMeansOneActive(a);
      SyncLostOnlyByRevival(a, Create(key));
      SyncedMeansOneActive(AnswerCall(a, key).0);
    } else if i :| i in m.jobs && m.jobs[i].key == key && Active(m.jobs[i].status) {
      assert ActiveFor(a.jobs, key, i) && ActiveFor(a.jobs, key, id);
    } else {
      RevivedJobIsDuplicated(m, id, status);
    }
  }

  /** The SQL store refuses the same update as soon as the key has another active job, and finds
      the revived job again when it has none. */
  lemma SqlRefusesOrFinds(s: State, id: JobId, status: Status)
    requires Inv(s) && id in s.rows && s.rows[id].committed && s.rows[id].status == Failed && Active(status)
    ensures (exists s' :: Step(s, SetStatus(id, status), s'))
            <==> (forall i :: !Indexed(s, s.rows[id].key, i))
    ensures forall s' | Step(s, SetStatus(id, status), s') :: Visible(s', s.rows[id].key, id)
  {
    var s1 := s.(rows := s.rows[id := s.rows[id].(status := status)]);
    if forall i :: !Indexed(s, s.rows[id].key, i) {
      assert Step(s, SetStatus(id, status), s1);
    }
  }

  class JobRecord {
    const id: JobId
    const key: string
    var status: Status
    var objectPath: Option<string>
    var checksum: Option<string>
    var error: Option<string>

    constructor (id: JobId, key: string)
      ensures this.id == id && this.key == key && status == Queued
      ensures objectPath == None && checksum == None && error == None
    {
      this.id, this.key := id, key;
      status, objectPath, checksum, error := Queued, None, None, None;
    }
  }

  class InMemoryJobStore {
    var jobs: map<JobId, JobRecord>
    var byKey: map<string, JobId>
    var next: JobId

    ghost predicate Valid()
      reads this, jobs.Values
    {
      (forall id | id in jobs :: jobs[id].id == id) && Consistent(Model())
    }

    /** The store's contents as a value. */
    ghost function Model(): Store
      reads this, jobs.Values
    {
      Store(map id | id in jobs :: Job(jobs[id].key, jobs[id].status), byKey, next)
    }

    constructor ()
      ensures Valid() && Model() == Store(map[], map[], 0) && Synced(Model())
    {
      jobs, byKey, next := map[], map[], 0;
    }

    method CreateOrGet(key: string) returns (job: JobRecord, created: bool)
      requires Valid()
      modifies this
      ensures Valid() && job in jobs.Values
      ensures (Model(), job.id, created) == AnswerCall(old(Model()), key)
      ensures jobs == if created then old(jobs)[job.id := job] else old(jobs)
      ensures created ==> fresh(job)
    {
      ghost var before := Model();
      if key in byKey {
        var existing := jobs[byKey[key]];
        assert before.jobs[byKey[key]].status == existing.status;
        if existing.status != Failed {
          return existing, false;
        }
      }
      assert Existing(before, key) == None;
      job := new JobRecord(next, key);
      created := true;
      Register(job);
      assert jobs[job.id] == job;
    }

    /** Both dictionaries take a new job. */
    method Register(job: JobRecord)
      requires Valid() && job !in jobs.Values && job.id == next && job.status == Queued
      modifies this
      ensures Valid() && jobs == old(jobs)[job.id := job]
      ensures Model().jobs == old(Model()).jobs[job.id := Job(job.key, Queued)]
      ensures Model().byKey == old(Model()).byKey[job.key := job.id] && Model().next == job.id + 1
    {
      jobs := jobs[next := job];
      byKey := byKey[job.key := next];
      next := next + 1;
      assert Model().jobs == old(Model()).jobs[job.id := Job(job.key, Queued)];
    }

    method MarkRunning(job: JobRecord)
      requires Valid() && job in jobs.Values
      modifies job
      ensures Valid() && Model() == MarkStatus(old(Model()), job.id, Running)
    {
      job.status := Running;
    }

    method MarkQueued(job: JobRecord)
      requires Valid() && job in jobs.Values
      modifies job
      ensures Valid() && Model() == MarkStatus(old(Model()), job.id, Queued)
    {
      job.status := Queued;
    }

    method MarkCompleted(job: JobRecord, objectPath: Option<string>, checksum: Option<string>)
      requires Valid() && job in jobs.Values
      modifies job
      ensures Valid() && Model() == MarkStatus(old(Model()), job.id, Completed)
      ensures job.objectPath == objectPath && job.checksum == checksum && job.error == None
    {
      job.status := Completed;
      job.objectPath := objectPath;
      job.checksum := checksum;
      job.error := None;
    }

    method MarkFailed(job: JobRecord, error: string)
      requires Valid() && job in jobs.Values
      modifies this, job
      ensures Valid() && Model() == MarkStatus(old(Model()), job.id, Failed)
      ensures job.error == Some(error) && jobs == old(jobs)
    {
      job.status := Failed;
      job.error := Some(error);
      if job.key in byKey && byKey[job.key] == job.id {
        byKey := byKey - {job.key};
      }
    }
  }
}
