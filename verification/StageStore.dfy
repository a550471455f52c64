/** The in-memory stage store: attempt-numbered stage records, at most one of them running for a
    job and a stage name. A record's position stands for its uuid. */
module StageStore {
  import opened Wrappers
  import opened Sequences
  import opened StableSorting
  import JobProtocol

  type JobId = JobProtocol.JobId

  datatype StageStatus = Pending | Running | Completed | Failed | Skipped | Retrying | Cancelled

  datatype StageName =
    | ProviderSearch | RawDownload | PrepareScene | SceneValidation
    | ObjectStorage | PgstacRegistration | Cleanup

  datatype Stage = Stage(job: JobId, name: StageName, attempt: nat, status: StageStatus, errorCode: Option<string>)

  predicate Same(s: Stage, job: JobId, name: StageName) { s.job == job && s.name == name }

  predicate IsRunning(s: Stage, job: JobId, name: StageName) { Same(s, job, name) && s.status == Running }

  /** `max(attempts, default=0)` over the records of a job and a stage name. */
  function MaxAttempt(ss: seq<Stage>, job: JobId, name: StageName): nat {
    if |ss| == 0 then 0 else
      var before := MaxAttempt(ss[..|ss| - 1], job, name);
      var last := ss[|ss| - 1];
      if Same(last, job, name) && before < last.attempt then last.attempt else before
  }

  function CountSame(ss: seq<Stage>, job: JobId, name: StageName): nat {
    if |ss| == 0 then 0 else
      CountSame(ss[..|ss| - 1], job, name) + if Same(ss[|ss| - 1], job, name) then 1 else 0
  }

  predicate SomeRunning(ss: seq<Stage>, job: JobId, name: StageName) {
    exists i | 0 <= i < |ss| :: IsRunning(ss[i], job, name)
  }

  function Started(ss: seq<Stage>, job: JobId, name: StageName): Stage {
    Stage(job, name, MaxAttempt(ss, job, name) + 1, Running, None)
  }

  /** The contents after `start_stage`, or nothing when it raises "stage already running". */
  function StartIn(ss: seq<Stage>, job: JobId, name: StageName): Option<seq<Stage>> {
    if SomeRunning(ss, job, name) then None else Some(ss + [Started(ss, job, name)])
  }

  function CompleteIn(ss: seq<Stage>, id: nat): seq<Stage>
    requires id < |ss|
  {
    ss[id := ss[id].(status := Completed)]
  }

  function FailIn(ss: seq<Stage>, id: nat, code: string): seq<Stage>
    requires id < |ss|
  {
    ss[id := ss[id].(status := Failed, errorCode := Some(code))]
  }

  /** The attempts of a job and a stage name are 1, 2, .. in the order they were started. */
  ghost predicate WellNumbered(ss: seq<Stage>) {
    forall i | 0 <= i < |ss| :: ss[i].attempt == CountSame(ss[..i], ss[i].job, ss[i].name) + 1
  }

  /** Only the latest attempt can be running, so at most one is. */
  ghost predicate OnlyLatestRuns(ss: seq<Stage>) {
    forall i, j | 0 <= i < j < |ss| && Same(ss[i], ss[j].job, ss[j].name) :: ss[i].status != Running
  }

  ghost predicate Inv(ss: seq<Stage>) { WellNumbered(ss) && OnlyLatestRuns(ss) }

  lemma InvMeansOneRunning(ss: seq<Stage>, job: JobId, name: StageName, i: nat, j: nat)
    requires Inv(ss) && i < |ss| && j < |ss|
    requires IsRunning(ss[i], job, name) && IsRunning(ss[j], job, name)
    ensures i == j
  {
  }

  lemma WellNumberedPrefix(ss: seq<Stage>, n: nat)
    requires WellNumbered(ss) && n <= |ss|
    ensures WellNumbered(ss[..n])
  {
    forall i | 0 <= i < n ensures ss[..n][..i] == ss[..i] {
    }
  }

  /** In a well-numbered store the highest attempt is the number of attempts. */
  lemma {:induction false} MaxIsCount(ss: seq<Stage>, job: JobId, name: StageName)
    requires WellNumbered(ss)
    ensures MaxAttempt(ss, job, name) == CountSame(ss, job, name)
  {
    if |ss| > 0 {
      WellNumberedPrefix(ss, |ss| - 1);
      MaxIsCount(ss[..|ss| - 1], job, name);
    }
  }

  lemma StartKeepsInv(ss: seq<Stage>, job: JobId, name: StageName)
    requires Inv(ss) && !SomeRunning(ss, job, name)
    ensures Inv(ss + [Started(ss, job, name)])
  {
    var r := ss + [Started(ss, job, name)];
    MaxIsCount(ss, job, name);
    forall i | 0 <= i < |r| ensures r[i].attempt == CountSame(r[..i], r[i].job, r[i].name) + 1 {
      assert r[..i] == ss[..i];
      if i == |ss| {
        assert ss[..i] == ss;
      }
    }
  }

  lemma {:induction false} CountIgnoresStatus(ss: seq<Stage>, ts: seq<Stage>, job: JobId, name: StageName)
    requires |ss| == |ts|
    requires forall i | 0 <= i < |ss| :: ss[i].job == ts[i].job && ss[i].name == ts[i].name
    ensures CountSame(ss, job, name) == CountSame(ts, job, name)
  {
    if |ss| > 0 {
      CountIgnoresStatus(ss[..|ss| - 1], ts[..|ts| - 1], job, name);
    }
  }

  /** Ending stages, any of them and in any status, keeps the invariant. */
  lemma EndingKeepsInv(ss: seq<Stage>, ts: seq<Stage>)
    requires Inv(ss) && |ss| == |ts|
    requires forall i | 0 <= i < |ss| ::
               ss[i].job == ts[i].job && ss[i].name == ts[i].name && ss[i].attempt == ts[i].attempt
    requires forall i | 0 <= i < |ss| && ts[i].status == Running :: ss[i].status == Running
    ensures Inv(ts)
  {
    forall i | 0 <= i < |ts| ensures ts[i].attempt == CountSame(ts[..i], ts[i].job, ts[i].name) + 1 {
      CountIgnoresStatus(ss[..i], ts[..i], ts[i].job, ts[i].name);
    }
  }

  // ---- Listing a job's stages ----

  /** A record with its position. */
  datatype Entry = Entry(id: nat, stage: Stage)

  /** The alphabetical order of the stage names. */
  function Rank(name: StageName): nat {
    match name
    case Cleanup => 0
    case ObjectStorage => 1
    case PgstacRegistration => 2
    case PrepareScene => 3
    case ProviderSearch => 4
    case RawDownload => 5
    case SceneValidation => 6
  }

  function ByNameAndAttempt(): (Entry, Entry) -> bool {
    (a: Entry, b: Entry) =>
      || Rank(a.stage.name) < Rank(b.stage.name)
      || (a.stage.name == b.stage.name && a.stage.attempt <= b.stage.attempt)
  }

  function Entries(ss: seq<Stage>, job: JobId): seq<Entry> {
    if |ss| == 0 then [] else
      var n := |ss| - 1;
      Entries(ss[..n], job) + if ss[n].job == job then [Entry(n, ss[n])] else []
  }

  /** `list_for_job`. */
  function ListForJob(ss: seq<Stage>, job: JobId): seq<Entry> { Sort(ByNameAndAttempt(), Entries(ss, job)) }

  lemma {:induction false} EntriesAre(ss: seq<Stage>, job: JobId, e: Entry)
    ensures e in Entries(ss, job) <==> e.id < |ss| && e.stage == ss[e.id] && ss[e.id].job == job
  {
    if |ss| > 0 {
      EntriesAre(ss[..|ss| - 1], job, e);
    }
  }

  /** The list holds every record of the job, ordered by stage name and attempt. */
  lemma ListForJobIs(ss: seq<Stage>, job: JobId)
    ensures SortedBy(ByNameAndAttempt(), ListForJob(ss, job))
    ensures forall e :: e in ListForJob(ss, job) <==> e.id < |ss| && e.stage == ss[e.id] && ss[e.id].job == job
  {
    hide Sort, Entries;
    assert TotalPreorder(ByNameAndAttempt());
    SortSorts(ByNameAndAttempt(), Entries(ss, job));
    SameMembers(ListForJob(ss, job), Entries(ss, job));
    forall e ensures e in ListForJob(ss, job) <==> e.id < |ss| && e.stage == ss[e.id] && ss[e.id].job == job {
      EntriesAre(ss, job, e);
    }
  }

  class JobStage {
    const job: JobId
    const name: StageName
    const attempt: nat
    var status: StageStatus
    var errorCode: Option<string>

    constructor (job: JobId, name: StageName, attempt: nat)
      ensures Value() == Stage(job, name, attempt, Running, None)
    {
      this.job, this.name, this.attempt := job, name, attempt;
      status, errorCode := Running, None;
    }

    function Value(): Stage
      reads this
    {
      Stage(job, name, attempt, status, errorCode)
    }
  }

  class InMemoryStageStore {
    var stages: seq<JobStage>

    ghost var objects: set<JobStage>

    ghost predicate Valid()
      reads this
    {
      && (forall i, j | 0 <= i < j < |stages| :: stages[i] != stages[j])
      && (forall i | 0 <= i < |stages| :: stages[i] in objects)
    }

    ghost function Contents(): (c: seq<Stage>)
      requires Valid()
      reads this, objects
      ensures |c| == |stages| && forall i | 0 <= i < |stages| :: c[i] == stages[i].Value()
    {
      seq(|stages|, i requires 0 <= i < |stages| requires Valid() reads this, objects => stages[i].Value())
    }

    constructor ()
      ensures Valid() && Contents() == []
    {
      stages, objects := [], {};
    }

    /** `_running_stage(..) is not None`. */
    method HasRunning(job: JobId, name: StageName) returns (r: bool)
      requires Valid()
      ensures r == SomeRunning(Contents(), job, name)
    {
      var i := 0;
      while i < |stages|
        invariant 0 <= i <= |stages|
        invariant forall j | 0 <= j < i :: !IsRunning(Contents()[j], job, name)
      {
        if stages[i].job == job && stages[i].name == name && stages[i].status == Running {
          assert IsRunning(Contents()[i], job, name);
          return true;
        }
        i := i + 1;
      }
      return false;
    }

    /** `_next_attempt`. */
    method NextAttempt(job: JobId, name: StageName) returns (n: nat)
      requires Valid()
      ensures n == MaxAttempt(Contents(), job, name) + 1
    {
      n := 0;
      var i := 0;
      while i < |stages|
        invariant 0 <= i <= |stages|
        invariant n == MaxAttempt(Contents()[..i], job, name)
      {
        assert Contents()[..i + 1][..i] == Contents()[..i];
        if stages[i].job == job && stages[i].name == name && n < stages[i].attempt {
          n := stages[i].attempt;
        }
        i := i + 1;
      }
      assert Contents()[..i] == Contents();
      n := n + 1;
    }

    method Append(stage: JobStage)
      requires Valid() && stage !in objects
      modifies this
      ensures Valid() && objects == old(objects) + {stage} && stages == old(stages) + [stage]
      ensures Contents() == old(Contents()) + [stage.Value()]
    {
      stages := stages + [stage];
      objects := objects + {stage};
      assert Contents() == old(Contents()) + [stage.Value()];
    }

    /** `start_stage`. */
    method StartStage(job: JobId, name: StageName) returns (r: Result<nat, string>)
      requires Valid()
      modifies this
      ensures Valid()
      ensures r.Err? <==> StartIn(old(Contents()), job, name).None?
      ensures r.Err? ==> stages == old(stages) && Contents() == old(Contents())
      ensures r.Ok? ==> r.value == |old(stages)| && |stages| == r.value + 1 && stages[..r.value] == old(stages)
      ensures objects == if r.Ok? then old(objects) + {stages[r.value]} else old(objects)
      ensures r.Ok? ==> fresh(stages[r.value])
      ensures r.Ok? ==> Some(Contents()) == StartIn(old(Contents()), job, name)
    {
      var running := HasRunning(job, name);
      if running {
        return Err("stage already running");
      }
      var attempt := NextAttempt(job, name);
      var stage := new JobStage(job, name, attempt);
      Append(stage);
      r := Ok(|stages| - 1);
    }

    /** `list_for_job`. */
    method ListFor(job: JobId) returns (listed: seq<Entry>)
      requires Valid()
      ensures listed == ListForJob(Contents(), job)
    {
      var entries: seq<Entry> := [];
      for i := 0 to |stages|
        invariant entries == Entries(Contents()[..i], job)
      {
        assert Contents()[..i + 1][..i] == Contents()[..i];
        if stages[i].job == job {
          entries := entries + [Entry(i, stages[i].Value())];
        }
      }
      assert Contents()[..|stages|] == Contents();
      listed := Sort(ByNameAndAttempt(), entries);
    }

    method MarkCompleted(id: nat)
      requires Valid() && id < |stages|
      modifies stages[id]
      ensures Valid()
      ensures Contents() == CompleteIn(old(Contents()), id)
    {
      stages[id].status := Completed;
      assert Contents() == CompleteIn(old(Contents()), id);
    }

    method MarkFailed(id: nat, code: string)
      requires Valid() && id < |stages|
      modifies stages[id]
      ensures Valid()
      ensures Contents() == FailIn(old(Contents()), id, code)
    {
      stages[id].status := Failed;
      stages[id].errorCode := Some(code);
      assert Contents() == FailIn(old(Contents()), id, code);
    }
  }
}
