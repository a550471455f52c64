/** `create_or_get` on PostgreSQL: SELECT, INSERT .. ON CONFLICT DO NOTHING, SELECT again, run by
    any number of callers at once under READ COMMITTED, beside status updates of any job. The
    partial unique index covers every row whose status is active, committed or not. */
module JobProtocol {

  type JobId = nat
  type Caller = nat

  datatype Status = Pending | Queued | Running | Completed | Failed

  /** The `WHERE status IN (...)` of the index and of the SELECT. */
  predicate Active(s: Status) { s != Failed }

  /** What a reader outside any transaction sees of a job. */
  datatype Job = Job(key: string, status: Status)

  type Table = map<JobId, Job>

  ghost predicate ActiveFor(t: Table, key: string, id: JobId) {
    id in t && t[id].key == key && Active(t[id].status)
  }

  ghost predicate OneActivePerKey(t: Table) {
    forall key, i, j | ActiveFor(t, key, i) && ActiveFor(t, key, j) :: i == j
  }

  /** The call as one indivisible step: hand out the active job of the key, or create one. */
  ghost predicate AtomicCreateOrGet(t: Table, key: string, id: JobId, created: bool, t': Table) {
    if created then
      (forall i :: !ActiveFor(t, key, i)) && id !in t && t' == t[id := Job(key, Queued)]
    else
      ActiveFor(t, key, id) && t' == t
  }

  ghost predicate AtomicSetStatus(t: Table, id: JobId, status: Status, t': Table) {
    id in t && t' == t[id := t[id].(status := status)]
  }

  datatype Row = Row(key: string, status: Status, committed: bool)

  /** Where a caller stands. `against` is the row its insert ran into. */
  datatype Call =
    | Begun(key: string)
    | Missed(key: string)
    | Conflicted(key: string, against: JobId)
    | Inserted(key: string, id: JobId)
    | Returned(key: string, id: JobId, created: bool)
    | Unresolved(key: string, against: JobId)
    | Lost(key: string)

  datatype State = State(rows: map<JobId, Row>, calls: map<Caller, Call>)

  datatype Action =
    | Enter(c: Caller, key: string)
    | SelectHit(c: Caller, id: JobId)
    | SelectMiss(c: Caller)
    | Insert(c: Caller, id: JobId)
    | InsertConflict(c: Caller, id: JobId)
    | Commit(c: Caller)
    | Abort(c: Caller)
    | ReselectHit(c: Caller, id: JobId)
    | ReselectMiss(c: Caller)
    | SetStatus(id: JobId, status: Status)

  /** The index holds an entry for this row. */
  ghost predicate Indexed(s: State, key: string, id: JobId) {
    id in s.rows && s.rows[id].key == key && Active(s.rows[id].status)
  }

  /** A statement of another transaction can see this row and it is active. */
  ghost predicate Visible(s: State, key: string, id: JobId) {
    Indexed(s, key, id) && s.rows[id].committed
  }

  ghost predicate NoneVisible(s: State, key: string) {
    forall i :: !Visible(s, key, i)
  }

  ghost predicate At(s: State, c: Caller, call: Call) {
    c in s.calls && s.calls[c] == call
  }

  ghost predicate Moved(s: State, s': State, c: Caller, call: Call) {
    s' == s.(calls := s.calls[c := call])
  }

  ghost predicate Step(s: State, a: Action, s': State) {
    match a
    case Enter(c, key) =>
      c !in s.calls && Moved(s, s', c, Begun(key))
    case SelectHit(c, id) =>
      c in s.calls && s.calls[c].Begun? && Visible(s, s.calls[c].key, id)
      && Moved(s, s', c, Returned(s.calls[c].key, id, false))
    case SelectMiss(c) =>
      c in s.calls && s.calls[c].Begun? && NoneVisible(s, s.calls[c].key)
      && Moved(s, s', c, Missed(s.calls[c].key))
    case Insert(c, id) =>
      // An uncommitted entry for the key blocks this statement, so it is not enabled then.
      c in s.calls && s.calls[c].Missed? && id !in s.rows
      && (forall i :: !Indexed(s, s.calls[c].key, i))
      && s' == State(s.rows[id := Row(s.calls[c].key, Queued, false)],
                     s.calls[c := Inserted(s.calls[c].key, id)])
    case InsertConflict(c, id) =>
      c in s.calls && s.calls[c].Missed? && Visible(s, s.calls[c].key, id)
      && Moved(s, s', c, Conflicted(s.calls[c].key, id))
    case Commit(c) =>
      c in s.calls && s.calls[c].Inserted? && s.calls[c].id in s.rows
      && s' == State(s.rows[s.calls[c].id := s.rows[s.calls[c].id].(committed := true)],
                     s.calls[c := Returned(s.calls[c].key, s.calls[c].id, true)])
    case Abort(c) =>
      c in s.calls && (s.calls[c].Begun? || s.calls[c].Missed? || s.calls[c].Conflicted? || s.calls[c].Inserted?)
      && s' == State(if s.calls[c].Inserted? then s.rows - {s.calls[c].id} else s.rows,
                     s.calls[c := Lost(s.calls[c].key)])
    case ReselectHit(c, id) =>
      c in s.calls && s.calls[c].Conflicted? && Visible(s, s.calls[c].key, id)
      && Moved(s, s', c, Returned(s.calls[c].key, id, false))
    case ReselectMiss(c) =>
      c in s.calls && s.calls[c].Conflicted? && NoneVisible(s, s.calls[c].key)
      && Moved(s, s', c, Unresolved(s.calls[c].key, s.calls[c].against))
    case SetStatus(id, status) =>
      // An UPDATE that would put a second row of the key into the index is refused.
      id in s.rows && s.rows[id].committed
      && (Active(status) ==> forall i :: Indexed(s, s.rows[id].key, i) ==> i == id)
      && s' == s.(rows := s.rows[id := s.rows[id].(status := status)])
  }

  /** The caller that a row belongs to: it inserted it, and is or will be told `created`. */
  predicate Creates(call: Call, id: JobId) {
    (call.Inserted? && call.id == id) || (call.Returned? && call.id == id && call.created)
  }

  ghost predicate IndexUnique(s: State) {
    forall key, i, j | Indexed(s, key, i) && Indexed(s, key, j) :: i == j
  }

  /** What the creator of a row is doing: told about it once the row is committed. */
  function CreatorsCall(s: State, id: JobId): Call
    requires id in s.rows
  {
    if s.rows[id].committed then Returned(s.rows[id].key, id, true) else Inserted(s.rows[id].key, id)
  }

  ghost predicate RowsHaveCreator(s: State) {
    forall id | id in s.rows :: exists c :: At(s, c, CreatorsCall(s, id))
  }

  ghost predicate CreatorsUnique(s: State) {
    forall c, d, id | c in s.calls && d in s.calls && Creates(s.calls[c], id) && Creates(s.calls[d], id) :: c == d
  }

  ghost predicate CallsHaveRows(s: State) {
    forall c | c in s.calls ::
      && (s.calls[c].Inserted? ==>
            s.calls[c].id in s.rows && s.rows[s.calls[c].id] == Row(s.calls[c].key, Queued, false))
      && (s.calls[c].Returned? ==>
            s.calls[c].id in s.rows && s.rows[s.calls[c].id].key == s.calls[c].key && s.rows[s.calls[c].id].committed)
      && (s.calls[c].Conflicted? ==>
            s.calls[c].against in s.rows && s.rows[s.calls[c].against].key == s.calls[c].key
            && s.rows[s.calls[c].against].committed)
  }

  ghost predicate Inv(s: State) {
    IndexUnique(s) && RowsHaveCreator(s) && CreatorsUnique(s) && CallsHaveRows(s)
  }

  lemma StepKeepsIndexUnique(s: State, a: Action, s': State)
    requires Inv(s) && Step(s, a, s')
    ensures IndexUnique(s')
  {
    forall key, i, j | Indexed(s', key, i) && Indexed(s', key, j) ensures i == j {
      if a.Insert? {
        assert i == a.id || Indexed(s, key, i);
        assert j == a.id || Indexed(s, key, j);
      } else if a.SetStatus? {
        assert i == a.id || Indexed(s, key, i);
        assert j == a.id || Indexed(s, key, j);
      } else {
        assert Indexed(s, key, i) && Indexed(s, key, j);
      }
    }
  }

  lemma StepKeepsCallsHaveRows(s: State, a: Action, s': State)
    requires Inv(s) && Step(s, a, s')
    ensures CallsHaveRows(s')
  {
    if a.Abort? && s.calls[a.c].Inserted? {
      forall c | c in s'.calls && s'.calls[c].Inserted? ensures s'.calls[c].id != s.calls[a.c].id {
        assert Creates(s.calls[a.c], s.calls[a.c].id);
      }
    } else if a.Commit? {
      forall c | c in s'.calls && s'.calls[c].Inserted? ensures s'.calls[c].id != s.calls[a.c].id {
        assert Creates(s.calls[a.c], s.calls[a.c].id);
      }
    }
  }

  lemma StepKeepsCreatorsUnique(s: State, a: Action, s': State)
    requires Inv(s) && Step(s, a, s')
    ensures CreatorsUnique(s')
  {
    forall c, d, id | c in s'.calls && d in s'.calls && Creates(s'.calls[c], id) && Creates(s'.calls[d], id)
      ensures c == d
    {
      if a.Insert? && id == a.id {
        assert forall e | e in s.calls :: !Creates(s.calls[e], id);
      } else {
        assert c in s.calls && Creates(s.calls[c], id);
        assert d in s.calls && Creates(s.calls[d], id);
      }
    }
  }

  lemma StepKeepsRowsHaveCreator(s: State, a: Action, s': State)
    requires Inv(s) && Step(s, a, s')
    ensures RowsHaveCreator(s')
  {
    forall id | id in s'.rows
      ensures exists c :: At(s', c, CreatorsCall(s', id))
    {
      if a.Insert? && id == a.id {
        assert At(s', a.c, CreatorsCall(s', id));
      } else {
        assert id in s.rows;
        var owner :| At(s, owner, CreatorsCall(s, id));
        if a.Commit? && id == s.calls[a.c].id {
          assert At(s', a.c, CreatorsCall(s', id));
        } else {
          assert At(s', owner, CreatorsCall(s', id));
        }
      }
    }
  }

  /** Every step of every caller, and every status update, keeps the invariant. */
  lemma StepKeepsInv(s: State, a: Action, s': State)
    requires Inv(s) && Step(s, a, s')
    ensures Inv(s')
  {
    StepKeepsIndexUnique(s, a, s');
    StepKeepsCallsHaveRows(s, a, s');
    StepKeepsCreatorsUnique(s, a, s');
    StepKeepsRowsHaveCreator(s, a, s');
  }

  // ---- Whole executions ----

  ghost predicate Execution(states: seq<State>, actions: seq<Action>) {
    && |states| == |actions| + 1
    && states[0] == State(map[], map[])
    && forall i | 0 <= i < |actions| :: Step(states[i], actions[i], states[i + 1])
  }

  lemma {:induction false} ReachableInv(states: seq<State>, actions: seq<Action>, n: nat)
    requires Execution(states, actions) && n < |states|
    ensures Inv(states[n])
  {
    if n > 0 {
      ReachableInv(states, actions, n - 1);
      StepKeepsInv(states[n - 1], actions[n - 1], states[n]);
    }
  }

  ghost function Committed(s: State): Table {
    map id | id in s.rows && s.rows[id].committed :: Job(s.rows[id].key, s.rows[id].status)
  }

  /** Over every interleaving no key ever has two active jobs, and every job that a reader can see
      was reported `created` to one caller and to no other. */
  lemma NoDuplicatesEver(states: seq<State>, actions: seq<Action>, n: nat)
    requires Execution(states, actions) && n < |states|
    ensures OneActivePerKey(Committed(states[n]))
    ensures var t := Committed(states[n]);
            forall i, j | i in t && j in t && i != j && t[i].key == t[j].key :: Failed in {t[i].status, t[j].status}
    ensures forall id | id in Committed(states[n]) ::
              exists c :: At(states[n], c, Returned(Committed(states[n])[id].key, id, true))
    ensures forall id, key, key', c, d |
              At(states[n], c, Returned(key, id, true)) && At(states[n], d, Returned(key', id, true)) ::
              c == d
  {
    ReachableInv(states, actions, n);
    var s := states[n];
    forall key, i, j | ActiveFor(Committed(s), key, i) && ActiveFor(Committed(s), key, j) ensures i == j {
      assert Indexed(s, key, i) && Indexed(s, key, j);
    }
    var t := Committed(s);
    forall i, j | i in t && j in t && i != j && t[i].key == t[j].key ensures Failed in {t[i].status, t[j].status} {
      assert !(ActiveFor(t, t[i].key, i) && ActiveFor(t, t[i].key, j));
    }
    forall id | id in Committed(s) ensures exists c :: At(s, c, Returned(Committed(s)[id].key, id, true)) {
      var c :| At(s, c, CreatorsCall(s, id));
      assert At(s, c, Returned(Committed(s)[id].key, id, true));
    }
    forall id, key, key', c, d | At(s, c, Returned(key, id, true)) && At(s, d, Returned(key', id, true))
      ensures c == d
    {
      assert Creates(s.calls[c], id) && Creates(s.calls[d], id);
    }
  }

  /** The three-statement protocol refines the indivisible call: each answer is given at a step
      that does, to the committed table, exactly what the indivisible call does; a status update
      is the indivisible one; every other step leaves the committed table alone. */
  lemma StepRefinesAtomic(s: State, a: Action, s': State)
    requires Inv(s) && Step(s, a, s')
    ensures a.SelectHit? || a.ReselectHit? || a.Commit? ==>
              s'.calls[a.c].Returned?
              && AtomicCreateOrGet(Committed(s), s.calls[a.c].key, s'.calls[a.c].id, s'.calls[a.c].created,
                                   Committed(s'))
    ensures a.SetStatus? ==> AtomicSetStatus(Committed(s), a.id, a.status, Committed(s'))
    ensures !(a.SelectHit? || a.ReselectHit? || a.Commit? || a.SetStatus?) ==> Committed(s') == Committed(s)
  {
    if a.Commit? {
      var key, id := s.calls[a.c].key, s.calls[a.c].id;
      assert Indexed(s, key, id);
      forall i ensures !ActiveFor(Committed(s), key, i) {
        if ActiveFor(Committed(s), key, i) {
          assert Indexed(s, key, i);
        }
      }
    }
  }

  /** A committed row stops being active only by an update to `failed`. */
  lemma {:induction false} LeavesActiveSet(states: seq<State>, actions: seq<Action>, m: nat, n: nat, key: string,
                                           id: JobId)
    returns (j: nat)
    requires Execution(states, actions) && m <= n < |states|
    requires Visible(states[m], key, id) && !Visible(states[n], key, id)
    ensures m <= j < n && actions[j] == SetStatus(id, Failed)
  {
    assert m < n;
    if Visible(states[n - 1], key, id) {
      j := n - 1;
      ReachableInv(states, actions, n - 1);
      assert Step(states[j], actions[j], states[n]);
    } else {
      j := LeavesActiveSet(states, actions, m, n - 1, key, id);
    }
  }

  /** A caller that ran into a row did so at an earlier step, when the row was active. */
  lemma {:induction false} ConflictHappened(states: seq<State>, actions: seq<Action>, n: nat, c: Caller)
    returns (m: nat)
    requires Execution(states, actions) && n < |states|
    requires c in states[n].calls && (states[n].calls[c].Conflicted? || states[n].calls[c].Unresolved?)
    ensures var call := states[n].calls[c];
            m < n && actions[m] == InsertConflict(c, call.against) && Visible(states[m], call.key, call.against)
  {
    assert n > 0;
    assert Step(states[n - 1], actions[n - 1], states[n]);
    if c in states[n - 1].calls && (states[n - 1].calls[c].Conflicted? || states[n - 1].calls[c].Unresolved?) {
      m := ConflictHappened(states, actions, n - 1, c);
    } else {
      m := n - 1;
    }
  }

  /** The call raises "could not be resolved" only if, after its insert ran into an active job and
      before it read again, that very job was marked failed. */
  lemma UnresolvedOnlyAfterFailure(states: seq<State>, actions: seq<Action>, n: nat, c: Caller)
    returns (m: nat, j: nat, r: nat)
    requires Execution(states, actions) && n < |states|
    requires c in states[n].calls && states[n].calls[c].Unresolved?
    ensures var call := states[n].calls[c];
            && m < j < r < n
            && actions[m] == InsertConflict(c, call.against)
            && actions[j] == SetStatus(call.against, Failed)
            && actions[r] == ReselectMiss(c)
  {
    r := RereadHappened(states, actions, n, c);
    m, j := FailureInBetween(states, actions, r, c);
  }

  lemma {:induction false} RereadHappened(states: seq<State>, actions: seq<Action>, n: nat, c: Caller) returns (r: nat)
    requires Execution(states, actions) && n < |states|
    requires c in states[n].calls && states[n].calls[c].Unresolved?
    ensures r < n && actions[r] == ReselectMiss(c)
    ensures c in states[r].calls && states[r].calls[c].Conflicted?
            && states[r].calls[c].against == states[n].calls[c].against
  {
    assert n > 0;
    assert Step(states[n - 1], actions[n - 1], states[n]);
    if c in states[n - 1].calls && states[n - 1].calls[c].Unresolved? {
      r := RereadHappened(states, actions, n - 1, c);
    } else {
      r := n - 1;
    }
  }

  lemma FailureInBetween(states: seq<State>, actions: seq<Action>, n: nat, c: Caller)
    returns (m: nat, j: nat)
    requires Execution(states, actions) && n < |actions| && actions[n] == ReselectMiss(c)
    requires c in states[n].calls && states[n].calls[c].Conflicted?
    ensures var call := states[n].calls[c];
            m < j < n && actions[m] == InsertConflict(c, call.against)
            && actions[j] == SetStatus(call.against, Failed)
  {
    assert Step(states[n], actions[n], states[n + 1]);
    var call := states[n].calls[c];
    m := ConflictHappened(states, actions, n, c);
    assert !Visible(states[n], call.key, call.against);
    j := LeavesActiveSet(states, actions, m, n, call.key, call.against);
    assert actions[j] != actions[m];
  }
}
