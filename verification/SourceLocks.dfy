/** The source/AOI lock and the scheduler run that takes it. A caller that loses keeps the
    registry's guard for as long as its body runs; a caller that wins gives the guard back and
    takes it again to let go of the name. Threads are interleaved step by step. */
module SourceLocks {
  import opened Wrappers

  type ThreadId = nat

  function LockName(source: string, aoi: string): string { "source:" + source + ":aoi:" + aoi }

  datatype Lifecycle = Enabled | Manual | Disabled

  datatype Plan = Plan(source: string, aoi: string, due: bool, dryRun: bool)

  /** What the registry of sources says about the plan's source; absent for an unknown one. */
  datatype SourceState = SourceState(lifecycle: Lifecycle, aois: set<string>)

  function NameOf(p: Plan): string { LockName(p.source, p.aoi) }

  /** `_source_gate` is None, for a known source. */
  predicate GateOpen(source: Option<SourceState>, p: Plan) {
    source.Some? && p.due && source.value.lifecycle != Disabled
    && (source.value.lifecycle == Manual ==> p.dryRun)
    && p.aoi in source.value.aois
  }

  /** What the gate asks for: a due plan for an AOI of a known source, which is enabled, or manual if the plan
      is a dry run. */
  lemma GateMeans(source: Option<SourceState>, p: Plan)
    ensures GateOpen(source, p)
            <==> && source.Some? && p.due && p.aoi in source.value.aois
                 && match source.value.lifecycle
                    case Enabled => true
                    case Manual => p.dryRun
                    case Disabled => false
  {
  }

  /** One source and AOI have one lock and different ones different locks, as long as the names of the sources
      hold no colon. */
  lemma LocksTellApart(p: Plan, q: Plan)
    requires ':' !in p.source && ':' !in q.source
    ensures NameOf(p) == NameOf(q) <==> p.source == q.source && p.aoi == q.aoi
  {
    var n := |"source:"|;
    assert NameOf(p)[n..] == p.source + ":aoi:" + p.aoi;
    assert NameOf(q)[n..] == q.source + ":aoi:" + q.aoi;
    if NameOf(p) == NameOf(q) {
      FirstColon(p.source, p.aoi, q.source, q.aoi);
    }
  }

  lemma FirstColon(a: string, x: string, b: string, y: string)
    requires ':' !in a && ':' !in b && a + ":aoi:" + x == b + ":aoi:" + y
    ensures a == b && x == y
  {
    var s := a + ":aoi:" + x;
    ColonAt(a, x);
    ColonAt(b, y);
    assert a == s[..|a|] && b == s[..|b|];
    assert x == s[|a| + 5..] && y == s[|b| + 5..];
  }

  lemma ColonAt(a: string, x: string)
    requires ':' !in a
    ensures var s := a + ":aoi:" + x;
            s[|a|] == ':' && forall i | 0 <= i < |a| :: s[i] != ':'
  {
    forall i | 0 <= i < |a| ensures (a + ":aoi:" + x)[i] != ':' {
      assert a[i] in a;
    }
  }

  function StateOf(sources: map<string, SourceState>, p: Plan): Option<SourceState> {
    if p.source in sources then Some(sources[p.source]) else None
  }

  /** How far a body has come: entered, past the test of `acquired`, past the test for a dry run, past
      the runtime and disk checks, past `start_backfill`, or returning. */
  datatype Point = Entered | HasLock | Live | Ready | Started | Leaving

  /** A `with acquire(..) as acquired` block of `run_source_job`: `won` is where the lock's own code
      goes on afterwards, `acquired` is what it handed to the body. */
  datatype Frame = Frame(plan: Plan, won: bool, acquired: bool, at: Point)

  /** Where a thread is: in a body (or outside all of them), at the gate, or between two statements
      of `acquire`. */
  datatype Pc =
    | Body
    | AtGate(plan: Plan)
    | WantGuard(plan: Plan)
    | Testing(plan: Plan)
    | Added(plan: Plan)
    | WantGuardBack(plan: Plan)
    | Removing(plan: Plan)
    | Removed

  /** The blocks a thread is inside, innermost last. */
  datatype Thread = Thread(pc: Pc, stack: seq<Frame>)

  datatype State = State(guard: Option<ThreadId>, held: set<string>, threads: map<ThreadId, Thread>)

  datatype Action =
    | Call(plan: Plan)
    | TestGate
    | TakeGuard
    | FindHeld
    | AddName
    | EnterWon
    | TestAcquired
    | TestDryRun
    | CheckRuntime(ok: bool)
    | StartBackfill
    | Return
    | EndLost
    | EndWon
    | TakeGuardBack
    | RemoveName
    | GiveGuard

  function Top(th: Thread): Frame
    requires |th.stack| > 0
  {
    th.stack[|th.stack| - 1]
  }

  predicate InLosingBody(th: Thread) { |th.stack| > 0 && !Top(th).won }

  /** The next statement of the thread is the one at `point` of its innermost body. */
  predicate AtPoint(th: Thread, point: Point) { th.pc == Body && |th.stack| > 0 && Top(th).at == point }

  function Popped(th: Thread): seq<Frame>
    requires |th.stack| > 0
  {
    th.stack[..|th.stack| - 1]
  }

  function Put(s: State, t: ThreadId, th: Thread): State { s.(threads := s.threads[t := th]) }

  /** The innermost body goes on to `point`. */
  function Advanced(th: Thread, point: Point): Thread
    requires |th.stack| > 0
  {
    th.(stack := Popped(th) + [Top(th).(at := point)])
  }

  /** One statement of one thread. A body may call `run_source_job` again; the bodies of the
      scheduler do not. */
  ghost predicate Step(s: State, t: ThreadId, a: Action, sources: map<string, SourceState>, s': State) {
    t in s.threads &&
    var th := s.threads[t];
    match a
    case Call(plan) =>
      th.pc == Body && s' == Put(s, t, th.(pc := AtGate(plan)))
    case TestGate =>
      th.pc.AtGate?
      && s' == Put(s, t, th.(pc := if GateOpen(StateOf(sources, th.pc.plan), th.pc.plan)
                                   then WantGuard(th.pc.plan) else Body))
    case TakeGuard =>
      th.pc.WantGuard? && s.guard == None
      && s' == Put(s, t, th.(pc := Testing(th.pc.plan))).(guard := Some(t))
    case FindHeld =>
      th.pc.Testing? && NameOf(th.pc.plan) in s.held
      && s' == Put(s, t, Thread(Body, th.stack + [Frame(th.pc.plan, false, false, Entered)]))
    case AddName =>
      th.pc.Testing? && NameOf(th.pc.plan) !in s.held
      && s' == Put(s, t, th.(pc := Added(th.pc.plan))).(held := s.held + {NameOf(th.pc.plan)})
    case EnterWon =>
      th.pc.Added?
      && s' == Put(s, t, Thread(Body, th.stack + [Frame(th.pc.plan, true, true, Entered)])).(guard := None)
    case TestAcquired =>
      AtPoint(th, Entered) && s' == Put(s, t, Advanced(th, if Top(th).acquired then HasLock else Leaving))
    case TestDryRun =>
      AtPoint(th, HasLock) && s' == Put(s, t, Advanced(th, if Top(th).plan.dryRun then Leaving else Live))
    case CheckRuntime(ok) =>
      AtPoint(th, Live) && s' == Put(s, t, Advanced(th, if ok then Ready else Leaving))
    case StartBackfill =>
      AtPoint(th, Ready) && s' == Put(s, t, Advanced(th, Started))
    case Return =>
      AtPoint(th, Started) && s' == Put(s, t, Advanced(th, Leaving))
    case EndLost =>
      AtPoint(th, Leaving) && !Top(th).won && s' == Put(s, t, th.(stack := Popped(th))).(guard := None)
    case EndWon =>
      AtPoint(th, Leaving) && Top(th).won && s' == Put(s, t, Thread(WantGuardBack(Top(th).plan), Popped(th)))
    case TakeGuardBack =>
      th.pc.WantGuardBack? && s.guard == None
      && s' == Put(s, t, th.(pc := Removing(th.pc.plan))).(guard := Some(t))
    case RemoveName =>
      th.pc.Removing? && s' == Put(s, t, th.(pc := Removed)).(held := s.held - {NameOf(th.pc.plan)})
    case GiveGuard =>
      th.pc.Removed? && s' == Put(s, t, th.(pc := Body)).(guard := None)
  }

  /** The statements of a body move its point and nothing else. */
  predicate MovesPoint(a: Action) {
    a.TestAcquired? || a.TestDryRun? || a.CheckRuntime? || a.StartBackfill? || a.Return?
  }

  lemma PointOnly(s: State, t: ThreadId, a: Action, sources: map<string, SourceState>, s': State)
    requires Step(s, t, a, sources, s') && MovesPoint(a)
    ensures s'.guard == s.guard && s'.held == s.held && s'.threads[t].pc == s.threads[t].pc == Body
    ensures |s'.threads[t].stack| == |s.threads[t].stack| > 0
    ensures forall i | 0 <= i < |s.threads[t].stack| ::
              s'.threads[t].stack[i] == s.threads[t].stack[i].(at := s'.threads[t].stack[i].at)
    ensures forall i | 0 <= i < |s.threads[t].stack| - 1 :: s'.threads[t].stack[i] == s.threads[t].stack[i]
  {
  }

  lemma OthersUnmoved(s: State, t: ThreadId, a: Action, sources: map<string, SourceState>, s': State)
    requires Step(s, t, a, sources, s')
    ensures s'.threads.Keys == s.threads.Keys
    ensures forall u | u in s'.threads && u != t :: s'.threads[u] == s.threads[u]
  {
  }

  // ---- Mutual exclusion ----

  /** Slot `i` of a thread owns a name: a winning body on its stack, or (-1) the thread itself
      between adding the name and entering, or between leaving and removing it. */
  predicate Owns(th: Thread, i: int, name: string) {
    if i == -1 then
      (th.pc.Added? || th.pc.WantGuardBack? || th.pc.Removing?) && NameOf(th.pc.plan) == name
    else
      0 <= i < |th.stack| && th.stack[i].won && NameOf(th.stack[i].plan) == name
  }

  predicate HoldsGuard(th: Thread) {
    th.pc.Testing? || th.pc.Added? || th.pc.Removing? || th.pc.Removed? || InLosingBody(th)
  }

  ghost predicate GuardInv(s: State) {
    && (forall t | t in s.threads :: HoldsGuard(s.threads[t]) <==> s.guard == Some(t))
    && (s.guard.Some? ==> s.guard.value in s.threads)
  }

  /** A losing body is the innermost one, and its thread is either in it or stuck behind it. */
  predicate WellStacked(th: Thread) {
    && (forall i | 0 <= i < |th.stack| - 1 :: th.stack[i].won)
    && (InLosingBody(th) ==> th.pc == Body || th.pc.AtGate? || th.pc.WantGuard?)
  }

  /** What a body knows at its point: it was told whether it won, goes past the first test only if it
      won, and past the second only if it is no dry run. */
  predicate KnowsWhere(f: Frame) {
    && f.acquired == f.won
    && (f.at in {HasLock, Live, Ready, Started} ==> f.won)
    && (f.at in {Live, Ready, Started} ==> !f.plan.dryRun)
  }

  ghost predicate StackInv(s: State) {
    forall t | t in s.threads ::
      && WellStacked(s.threads[t])
      && forall i | 0 <= i < |s.threads[t].stack| :: KnowsWhere(s.threads[t].stack[i])
  }

  ghost predicate HeldInv(s: State) {
    && (forall t, i, name | t in s.threads && Owns(s.threads[t], i, name) :: name in s.held)
    && (forall name | name in s.held :: exists t, i :: t in s.threads && Owns(s.threads[t], i, name))
  }

  ghost predicate OwnerUnique(s: State) {
    forall t, i, u, j, name | t in s.threads && u in s.threads
                              && Owns(s.threads[t], i, name) && Owns(s.threads[u], j, name) ::
      t == u && i == j
  }

  ghost predicate Inv(s: State) { GuardInv(s) && StackInv(s) && HeldInv(s) && OwnerUnique(s) }

  /** The stepping thread stays well stacked. */
  lemma StepKeepsWellStacked(s: State, t: ThreadId, a: Action, sources: map<string, SourceState>, s': State)
    requires GuardInv(s) && t in s.threads && WellStacked(s.threads[t]) && Step(s, t, a, sources, s')
    ensures WellStacked(s'.threads[t])
  {
    var th, th' := s.threads[t], s'.threads[t];
    assert HoldsGuard(th) <==> s.guard == Some(t);
    if MovesPoint(a) {
      PointOnly(s, t, a, sources, s');
    } else if a.FindHeld? || a.EnterWon? {
      assert forall i | 0 <= i < |th.stack| :: th'.stack[i] == th.stack[i] && th.stack[i].won;
    }
  }

  lemma StepKeepsKnowledge(s: State, t: ThreadId, a: Action, sources: map<string, SourceState>, s': State, i: nat)
    requires Step(s, t, a, sources, s') && i < |s'.threads[t].stack|
    requires forall j | 0 <= j < |s.threads[t].stack| :: KnowsWhere(s.threads[t].stack[j])
    ensures KnowsWhere(s'.threads[t].stack[i])
  {
    var th := s.threads[t];
    if i < |th.stack| {
      assert KnowsWhere(th.stack[i]);
    }
  }

  lemma StepKeepsStackInv(s: State, t: ThreadId, a: Action, sources: map<string, SourceState>, s': State)
    requires GuardInv(s) && StackInv(s) && Step(s, t, a, sources, s')
    ensures StackInv(s')
  {
    OthersUnmoved(s, t, a, sources, s');
    hide Step, KnowsWhere, WellStacked, GuardInv;
    StepKeepsWellStacked(s, t, a, sources, s');
    forall i | 0 <= i < |s'.threads[t].stack| ensures KnowsWhere(s'.threads[t].stack[i]) {
      StepKeepsKnowledge(s, t, a, sources, s', i);
    }
  }

  /** The stepping thread holds the guard afterwards exactly when the guard says so, and the guard
      of another thread is never touched. */
  lemma StepMovesGuard(s: State, t: ThreadId, a: Action, sources: map<string, SourceState>, s': State)
    requires GuardInv(s) && t in s.threads && WellStacked(s.threads[t]) && Step(s, t, a, sources, s')
    ensures HoldsGuard(s'.threads[t]) <==> s'.guard == Some(t)
    ensures forall u | u != t :: s.guard == Some(u) <==> s'.guard == Some(u)
  {
    var th, th' := s.threads[t], s'.threads[t];
    assert HoldsGuard(th) <==> s.guard == Some(t);
    if MovesPoint(a) {
      PointOnly(s, t, a, sources, s');
      assert Top(th').won == Top(th).won;
    } else if a.EndLost? || a.EndWon? {
      assert forall i | 0 <= i < |th'.stack| :: th'.stack[i] == th.stack[i] && th.stack[i].won;
    }
  }

  lemma StepKeepsGuardInv(s: State, t: ThreadId, a: Action, sources: map<string, SourceState>, s': State)
    requires GuardInv(s) && StackInv(s) && Step(s, t, a, sources, s')
    ensures GuardInv(s')
  {
    OthersUnmoved(s, t, a, sources, s');
    StepMovesGuard(s, t, a, sources, s');
    hide Step, HoldsGuard, WellStacked, KnowsWhere;
    forall u | u in s'.threads && u != t ensures HoldsGuard(s'.threads[u]) <==> s'.guard == Some(u) {
      assert HoldsGuard(s.threads[u]) <==> s.guard == Some(u);
    }
    if s'.guard.Some? && s'.guard.value != t {
      assert s.guard == Some(s'.guard.value);
    }
  }

  /** Where a slot of the stepping thread was before the step. */
  function SlotBefore(s: State, t: ThreadId, a: Action, i: int): int
    requires t in s.threads
  {
    if a.EnterWon? && i == |s.threads[t].stack| then -1
    else if a.EndWon? && i == -1 then |s.threads[t].stack| - 1 else i
  }

  lemma OwnsBefore(s: State, t: ThreadId, a: Action, sources: map<string, SourceState>, s': State, i: int, name: string)
    requires Step(s, t, a, sources, s') && Owns(s'.threads[t], i, name)
    ensures (!a.AddName? || i != -1) ==> Owns(s.threads[t], SlotBefore(s, t, a, i), name)
    ensures a.AddName? && i == -1 ==> name == NameOf(s.threads[t].pc.plan) && name !in s.held
  {
    if MovesPoint(a) {
      PointOnly(s, t, a, sources, s');
    }
  }

  /** Where a slot of the stepping thread is after the step, unless its name was removed. */
  lemma OwnsAfter(s: State, t: ThreadId, a: Action, sources: map<string, SourceState>, s': State, i: int, name: string)
    requires Step(s, t, a, sources, s') && Owns(s.threads[t], i, name)
    requires a.RemoveName? ==> i != -1
    ensures Owns(s'.threads[t], if a.EnterWon? && i == -1 then |s.threads[t].stack|
                                else if a.EndWon? && i == |s.threads[t].stack| - 1 then -1 else i, name)
  {
    if MovesPoint(a) {
      PointOnly(s, t, a, sources, s');
    }
  }

  lemma StepKeepsOwnerUnique(s: State, t: ThreadId, a: Action, sources: map<string, SourceState>, s': State)
    requires HeldInv(s) && OwnerUnique(s) && Step(s, t, a, sources, s')
    ensures OwnerUnique(s')
  {
    OthersUnmoved(s, t, a, sources, s');
    hide Step, Owns;
    forall u, i, v, j, name | u in s'.threads && v in s'.threads
                              && Owns(s'.threads[u], i, name) && Owns(s'.threads[v], j, name)
      ensures u == v && i == j
    {
      if u == t { OwnsBefore(s, t, a, sources, s', i, name); }
      if v == t { OwnsBefore(s, t, a, sources, s', j, name); }
      var i0 := if u == t then SlotBefore(s, t, a, i) else i;
      var j0 := if v == t then SlotBefore(s, t, a, j) else j;
      assert (a.AddName? && u == t && i == -1) || Owns(s.threads[u], i0, name);
      assert (a.AddName? && v == t && j == -1) || Owns(s.threads[v], j0, name);
    }
  }

  /** What a step does to the held names. */
  lemma StepMovesHeld(s: State, t: ThreadId, a: Action, sources: map<string, SourceState>, s': State)
    requires Step(s, t, a, sources, s')
    ensures a.AddName? ==> && s'.held == s.held + {NameOf(s.threads[t].pc.plan)}
                           && Owns(s'.threads[t], -1, NameOf(s.threads[t].pc.plan))
    ensures a.RemoveName? ==> && s'.held == s.held - {NameOf(s.threads[t].pc.plan)}
                              && Owns(s.threads[t], -1, NameOf(s.threads[t].pc.plan))
                              && forall name :: !Owns(s'.threads[t], -1, name)
    ensures !a.AddName? && !a.RemoveName? ==> s'.held == s.held
  {
  }

  lemma OwnedStaysHeld(s: State, t: ThreadId, a: Action, sources: map<string, SourceState>, s': State, u: ThreadId,
                       i: int, name: string)
    requires HeldInv(s) && OwnerUnique(s) && Step(s, t, a, sources, s')
    requires u in s'.threads && Owns(s'.threads[u], i, name)
    ensures name in s'.held
  {
    OthersUnmoved(s, t, a, sources, s');
    StepMovesHeld(s, t, a, sources, s');
    hide Step, Owns;
    if u == t {
      OwnsBefore(s, t, a, sources, s', i, name);
    } else {
      assert Owns(s.threads[u], i, name);
    }
  }

  lemma HeldStaysOwned(s: State, t: ThreadId, a: Action, sources: map<string, SourceState>, s': State, name: string)
    requires HeldInv(s) && Step(s, t, a, sources, s') && name in s'.held
    ensures exists u, i :: u in s'.threads && Owns(s'.threads[u], i, name)
  {
    OthersUnmoved(s, t, a, sources, s');
    StepMovesHeld(s, t, a, sources, s');
    hide Step;
    if a.AddName? && name == NameOf(s.threads[t].pc.plan) {
      assert Owns(s'.threads[t], -1, name);
    } else {
      var u, i :| u in s.threads && Owns(s.threads[u], i, name);
      if u != t {
        assert Owns(s'.threads[u], i, name);
      } else {
        OwnsAfter(s, t, a, sources, s', i, name);
      }
    }
  }

  lemma StepKeepsHeldInv(s: State, t: ThreadId, a: Action, sources: map<string, SourceState>, s': State)
    requires HeldInv(s) && OwnerUnique(s) && Step(s, t, a, sources, s')
    ensures HeldInv(s')
  {
    hide Step, Owns;
    forall u, i, name | u in s'.threads && Owns(s'.threads[u], i, name) ensures name in s'.held {
      OwnedStaysHeld(s, t, a, sources, s', u, i, name);
    }
    forall name | name in s'.held ensures exists u, i :: u in s'.threads && Owns(s'.threads[u], i, name) {
      HeldStaysOwned(s, t, a, sources, s', name);
    }
  }

  lemma StepKeepsInv(s: State, t: ThreadId, a: Action, sources: map<string, SourceState>, s': State)
    requires Inv(s) && Step(s, t, a, sources, s')
    ensures Inv(s')
  {
    hide Step, GuardInv, StackInv, HeldInv, OwnerUnique;
    StepKeepsStackInv(s, t, a, sources, s');
    StepKeepsGuardInv(s, t, a, sources, s');
    StepKeepsOwnerUnique(s, t, a, sources, s');
    StepKeepsHeldInv(s, t, a, sources, s');
  }

  ghost predicate Initial(s: State) {
    s.guard == None && s.held == {} && forall t | t in s.threads :: s.threads[t] == Thread(Body, [])
  }

  ghost predicate Execution(states: seq<State>, who: seq<ThreadId>, actions: seq<Action>,
                            sources: map<string, SourceState>) {
    && |states| == |actions| + 1 && |who| == |actions|
    && Initial(states[0])
    && forall i | 0 <= i < |actions| :: Step(states[i], who[i], actions[i], sources, states[i + 1])
  }

  lemma {:induction false} ReachableInv(states: seq<State>, who: seq<ThreadId>, actions: seq<Action>,
                                        sources: map<string, SourceState>, n: nat)
    requires Execution(states, who, actions, sources) && n < |states|
    ensures Inv(states[n])
  {
    if n > 0 {
      ReachableInv(states, who, actions, sources, n - 1);
      StepKeepsInv(states[n - 1], who[n - 1], actions[n - 1], sources, states[n]);
    }
  }

  ghost predicate WinsName(th: Thread, name: string) {
    exists i :: Owns(th, i, name)
  }

  /** Over every interleaving the held names are the names of the current winners, and no name has
      two. */
  lemma ExclusionAlways(states: seq<State>, who: seq<ThreadId>, actions: seq<Action>,
                        sources: map<string, SourceState>, n: nat)
    requires Execution(states, who, actions, sources) && n < |states|
    ensures forall name :: name in states[n].held
                           <==> exists t :: t in states[n].threads && WinsName(states[n].threads[t], name)
    ensures forall name, t, u | t in states[n].threads && u in states[n].threads
                               && WinsName(states[n].threads[t], name) && WinsName(states[n].threads[u], name) :: t == u
  {
    ReachableInv(states, who, actions, sources, n);
    var s := states[n];
    forall name ensures name in s.held <==> exists t :: t in s.threads && WinsName(s.threads[t], name) {
      if name in s.held {
        var t, i :| t in s.threads && Owns(s.threads[t], i, name);
        assert WinsName(s.threads[t], name);
      }
      if t :| t in s.threads && WinsName(s.threads[t], name) {
        var i :| Owns(s.threads[t], i, name);
      }
    }
  }

  predicate Admitted(th: Thread, sources: map<string, SourceState>) {
    && (th.pc.WantGuard? || th.pc.Testing? || th.pc.Added? ==> GateOpen(StateOf(sources, th.pc.plan), th.pc.plan))
    && forall i | 0 <= i < |th.stack| :: GateOpen(StateOf(sources, th.stack[i].plan), th.stack[i].plan)
  }

  lemma StepKeepsAdmitted(s: State, t: ThreadId, a: Action, sources: map<string, SourceState>, s': State)
    requires Step(s, t, a, sources, s') && Admitted(s.threads[t], sources)
    ensures Admitted(s'.threads[t], sources)
  {
    hide GateOpen;
    if MovesPoint(a) {
      PointOnly(s, t, a, sources, s');
    }
  }

  /** Only plans that passed the gate get to the lock or into a body. */
  lemma {:induction false} OnlyAdmittedPlans(states: seq<State>, who: seq<ThreadId>, actions: seq<Action>,
                                             sources: map<string, SourceState>, n: nat)
    requires Execution(states, who, actions, sources) && n < |states|
    ensures forall t | t in states[n].threads :: Admitted(states[n].threads[t], sources)
  {
    hide Step, GateOpen;
    if n > 0 {
      OnlyAdmittedPlans(states, who, actions, sources, n - 1);
      assert Step(states[n - 1], who[n - 1], actions[n - 1], sources, states[n]);
      StepNamesThread(states[n - 1], who[n - 1], actions[n - 1], sources, states[n]);
      OthersUnmoved(states[n - 1], who[n - 1], actions[n - 1], sources, states[n]);
      StepKeepsAdmitted(states[n - 1], who[n - 1], actions[n - 1], sources, states[n]);
    }
  }

  lemma StepNamesThread(s: State, t: ThreadId, a: Action, sources: map<string, SourceState>, s': State)
    requires Step(s, t, a, sources, s')
    ensures t in s.threads && t in s'.threads
    ensures a.StartBackfill? ==> AtPoint(s.threads[t], Ready) && s' == Put(s, t, Advanced(s.threads[t], Started))
    ensures a.EnterWon? ==> s.threads[t].pc.Added?
  {
  }

  /** The plan of the backfill that a thread about to start one is going to start. */
  function Starting(s: State, t: ThreadId): Plan
    requires t in s.threads && AtPoint(s.threads[t], Ready)
  {
    Top(s.threads[t]).plan
  }

  /** A body that has come to the start of the backfill has won its name, as the only winner there is,
      for a due plan of an enabled source that is no dry run. */
  lemma BackfillOnlyUnderLock(states: seq<State>, who: seq<ThreadId>, actions: seq<Action>,
                              sources: map<string, SourceState>, n: nat)
    requires Execution(states, who, actions, sources) && n < |actions| && actions[n].StartBackfill?
    ensures who[n] in states[n].threads && AtPoint(states[n].threads[who[n]], Ready)
    ensures var th, plan := states[n].threads[who[n]], Starting(states[n], who[n]);
            && Top(th).won && !plan.dryRun && plan.due
            && plan.source in sources && sources[plan.source].lifecycle == Enabled
            && WinsName(th, NameOf(plan))
            && forall u | u in states[n].threads && WinsName(states[n].threads[u], NameOf(plan)) :: u == who[n]
  {
    hide Step, OwnerUnique, HeldInv, GuardInv, WellStacked;
    ReachableInv(states, who, actions, sources, n);
    OnlyAdmittedPlans(states, who, actions, sources, n);
    var s, t := states[n], who[n];
    assert Step(s, t, actions[n], sources, states[n + 1]);
    StepNamesThread(s, t, actions[n], sources, states[n + 1]);
    var th := s.threads[t];
    assert KnowsWhere(th.stack[|th.stack| - 1]);
    assert Owns(th, |th.stack| - 1, NameOf(Top(th).plan));
    ExclusionAlways(states, who, actions, sources, n);
  }

  // ---- One backfill per win ----

  /** Some winner of the name has not come to its backfill yet. */
  ghost predicate Unstarted(s: State, name: string) {
    exists t, i :: t in s.threads && UnstartedSlot(s.threads[t], i, name)
  }

  predicate UnstartedSlot(th: Thread, i: int, name: string) {
    0 <= i < |th.stack| && th.stack[i].won && NameOf(th.stack[i].plan) == name
    && th.stack[i].at in {Entered, HasLock, Live, Ready}
  }

  lemma UnstartedBefore(s: State, t: ThreadId, a: Action, sources: map<string, SourceState>, s': State, i: int,
                        name: string)
    requires Step(s, t, a, sources, s') && UnstartedSlot(s'.threads[t], i, name)
    ensures UnstartedSlot(s.threads[t], i, name) || (a.EnterWon? && NameOf(s.threads[t].pc.plan) == name)
  {
    if MovesPoint(a) {
      PointOnly(s, t, a, sources, s');
    }
  }

  /** Only winning the name brings an unstarted winner of it about. */
  lemma UnstartedByWinning(s: State, t: ThreadId, a: Action, sources: map<string, SourceState>, s': State, name: string)
    requires Step(s, t, a, sources, s') && !Unstarted(s, name) && Unstarted(s', name)
    ensures t in s.threads && a.EnterWon? && s.threads[t].pc.Added? && NameOf(s.threads[t].pc.plan) == name
  {
    OthersUnmoved(s, t, a, sources, s');
    StepNamesThread(s, t, a, sources, s');
    hide Step, UnstartedSlot;
    var u, i :| u in s'.threads && UnstartedSlot(s'.threads[u], i, name);
    if u == t {
      UnstartedBefore(s, t, a, sources, s', i, name);
    }
  }

  /** Starting the backfill leaves no unstarted winner of its name. */
  lemma StartLeavesNone(s: State, t: ThreadId, sources: map<string, SourceState>, s': State)
    requires Inv(s) && Step(s, t, StartBackfill, sources, s')
    ensures t in s.threads && AtPoint(s.threads[t], Ready) && !Unstarted(s', NameOf(Starting(s, t)))
  {
    var th := s.threads[t];
    var top := |th.stack| - 1;
    var name := NameOf(Starting(s, t));
    OthersUnmoved(s, t, StartBackfill, sources, s');
    PointOnly(s, t, StartBackfill, sources, s');
    assert KnowsWhere(th.stack[top]);
    assert Owns(th, top, name);
    forall u, i | u in s'.threads ensures !UnstartedSlot(s'.threads[u], i, name) {
      if UnstartedSlot(s'.threads[u], i, name) {
        assert Owns(s.threads[u], i, name);
      }
    }
  }

  lemma {:induction false} WonInBetween(states: seq<State>, who: seq<ThreadId>, actions: seq<Action>,
                                        sources: map<string, SourceState>, m: nat, n: nat, name: string)
    returns (j: nat)
    requires Execution(states, who, actions, sources) && m <= n < |states|
    requires !Unstarted(states[m], name) && Unstarted(states[n], name)
    ensures m <= j < n && actions[j].EnterWon? && who[j] in states[j].threads
    ensures states[j].threads[who[j]].pc.Added? && NameOf(states[j].threads[who[j]].pc.plan) == name
    decreases n
  {
    hide Step, Unstarted;
    assert m < n;
    if Unstarted(states[n - 1], name) {
      j := WonInBetween(states, who, actions, sources, m, n - 1, name);
    } else {
      j := n - 1;
      assert Step(states[j], who[j], actions[j], sources, states[n]);
      UnstartedByWinning(states[j], who[j], actions[j], sources, states[n], name);
    }
  }

  /** Between two backfills under one name, whichever threads start them, the name is won anew. */
  lemma OncePerWin(states: seq<State>, who: seq<ThreadId>, actions: seq<Action>,
                   sources: map<string, SourceState>, m: nat, n: nat) returns (j: nat)
    requires Execution(states, who, actions, sources) && m < n < |actions|
    requires actions[m].StartBackfill? && actions[n].StartBackfill?
    requires who[m] in states[m].threads && AtPoint(states[m].threads[who[m]], Ready)
    requires who[n] in states[n].threads && AtPoint(states[n].threads[who[n]], Ready)
    requires NameOf(Starting(states[m], who[m])) == NameOf(Starting(states[n], who[n]))
    ensures m < j < n && actions[j].EnterWon? && who[j] in states[j].threads
    ensures states[j].threads[who[j]].pc.Added?
            && NameOf(states[j].threads[who[j]].pc.plan) == NameOf(Starting(states[m], who[m]))
  {
    hide Step;
    var name := NameOf(Starting(states[m], who[m]));
    ReachableInv(states, who, actions, sources, m);
    ReachableInv(states, who, actions, sources, n);
    assert Step(states[m], who[m], actions[m], sources, states[m + 1]);
    StartLeavesNone(states[m], who[m], sources, states[m + 1]);
    var th := states[n].threads[who[n]];
    assert KnowsWhere(th.stack[|th.stack| - 1]);
    assert UnstartedSlot(th, |th.stack| - 1, name);
    j := WonInBetween(states, who, actions, sources, m + 1, n, name);
  }

  // ---- The guard ----

  /** A thread asks for the guard it is holding: it called `acquire` inside a losing body. */
  predicate AsksForItsOwnGuard(th: Thread) { th.pc.WantGuard? && InLosingBody(th) }

  /** The holder's own remaining statements before the guard is free again, from inside `acquire` and
      from the body of a loser that calls nothing more. */
  function StatementsLeft(th: Thread): nat {
    if th.pc.Testing? then 3 else if th.pc.Removing? then 2
    else if th.pc == Body && |th.stack| > 0 && Top(th).at == Entered then 2 else 1
  }

  /** The thread is not on its way into another `acquire` from inside a losing body. */
  predicate CallsNothing(th: Thread) { InLosingBody(th) ==> th.pc == Body }

  /** A holder that does not call `acquire` from inside a losing body can take its own next statements,
      at most three, up to the release of the guard: no other thread can be in their way. */
  lemma {:induction false} GuardComesFree(s: State, t: ThreadId, sources: map<string, SourceState>)
    returns (states: seq<State>, actions: seq<Action>)
    requires Inv(s) && s.guard == Some(t) && CallsNothing(s.threads[t])
    ensures |states| == |actions| + 1 && 1 <= |actions| <= StatementsLeft(s.threads[t]) <= 3
    ensures states[0] == s && states[|actions|].guard == None
    ensures forall i | 0 <= i < |actions| :: Step(states[i], t, actions[i], sources, states[i + 1])
    decreases StatementsLeft(s.threads[t])
  {
    hide Step, Inv;
    var a, s1 := NextTowardsFree(s, t, sources);
    if s1.guard == None {
      states, actions := [s, s1], [a];
    } else {
      StepKeepsInv(s, t, a, sources, s1);
      var rest, acts := GuardComesFree(s1, t, sources);
      states, actions := [s] + rest, [a] + acts;
    }
  }

  lemma NextTowardsFree(s: State, t: ThreadId, sources: map<string, SourceState>) returns (a: Action, s1: State)
    requires Inv(s) && s.guard == Some(t) && CallsNothing(s.threads[t])
    ensures Step(s, t, a, sources, s1)
    ensures s1.guard == None
            || (s1.guard == Some(t) && StatementsLeft(s1.threads[t]) < StatementsLeft(s.threads[t])
                && CallsNothing(s1.threads[t]))
  {
    hide HeldInv, OwnerUnique, Step, StatementsLeft;
    var th := s.threads[t];
    assert HoldsGuard(th) && WellStacked(th);
    if InLosingBody(th) {
      assert KnowsWhere(th.stack[|th.stack| - 1]);
      a, s1 := NextInLosingBody(s, t, sources);
    } else {
      a, s1 := NextInAcquire(s, t, sources);
    }
  }

  lemma NextInLosingBody(s: State, t: ThreadId, sources: map<string, SourceState>) returns (a: Action, s1: State)
    requires t in s.threads && s.guard == Some(t)
    requires var th := s.threads[t]; th.pc == Body && InLosingBody(th) && KnowsWhere(Top(th))
    ensures Step(s, t, a, sources, s1)
    ensures s1.guard == None
            || (s1.guard == Some(t) && StatementsLeft(s1.threads[t]) < StatementsLeft(s.threads[t])
                && CallsNothing(s1.threads[t]))
  {
    var th := s.threads[t];
    if Top(th).at == Entered {
      a, s1 := TestAcquired, Put(s, t, Advanced(th, Leaving));
    } else {
      a, s1 := EndLost, Put(s, t, th.(stack := Popped(th))).(guard := None);
    }
  }

  lemma NextInAcquire(s: State, t: ThreadId, sources: map<string, SourceState>) returns (a: Action, s1: State)
    requires t in s.threads && s.guard == Some(t)
    requires var th := s.threads[t]; th.pc.Testing? || th.pc.Added? || th.pc.Removing? || th.pc.Removed?
    ensures Step(s, t, a, sources, s1)
    ensures s1.guard == None
            || (s1.guard == Some(t) && StatementsLeft(s1.threads[t]) < StatementsLeft(s.threads[t])
                && CallsNothing(s1.threads[t]) <== CallsNothing(s.threads[t]))
  {
    var th := s.threads[t];
    if th.pc.Testing? {
      if NameOf(th.pc.plan) in s.held {
        a, s1 := FindHeld, Put(s, t, Thread(Body, th.stack + [Frame(th.pc.plan, false, false, Entered)]));
      } else {
        a, s1 := AddName, Put(s, t, th.(pc := Added(th.pc.plan))).(held := s.held + {NameOf(th.pc.plan)});
      }
    } else if th.pc.Added? {
      a, s1 := EnterWon, Put(s, t, Thread(Body, th.stack + [Frame(th.pc.plan, true, true, Entered)])).(guard := None);
    } else if th.pc.Removing? {
      a, s1 := RemoveName, Put(s, t, th.(pc := Removed)).(held := s.held - {NameOf(th.pc.plan)});
    } else {
      a, s1 := GiveGuard, Put(s, t, th.(pc := Body)).(guard := None);
    }
  }

  lemma SelfWaitStays(s: State, t: ThreadId, u: ThreadId, a: Action, sources: map<string, SourceState>, s': State)
    requires Inv(s) && t in s.threads && AsksForItsOwnGuard(s.threads[t])
    requires Step(s, u, a, sources, s')
    ensures u != t && t in s'.threads && s'.threads[t] == s.threads[t]
    ensures s'.guard == s.guard == Some(t) && s'.held == s.held
    ensures !(a.TakeGuard? || a.TakeGuardBack? || a.EnterWon? || a.RemoveName?)
  {
    hide HeldInv, OwnerUnique, StackInv;
    assert HoldsGuard(s.threads[t]);
    assert u in s.threads ==> (HoldsGuard(s.threads[u]) <==> s.guard == Some(u));
  }

  /** The condition is needed: a thread that asks for its own guard keeps it to the end of every
      execution, and no thread gets into or out of a winning body again. */
  lemma {:induction false} SelfWaitIsForEver(states: seq<State>, who: seq<ThreadId>, actions: seq<Action>,
                                             sources: map<string, SourceState>, m: nat, n: nat, t: ThreadId)
    requires Execution(states, who, actions, sources) && m <= n < |states|
    requires t in states[m].threads && AsksForItsOwnGuard(states[m].threads[t])
    ensures t in states[n].threads && states[n].threads[t] == states[m].threads[t]
    ensures m < n ==> states[n].guard == Some(t) && states[n].held == states[m].held
    ensures forall i | m <= i < n ::
              && who[i] != t
              && !(actions[i].TakeGuard? || actions[i].TakeGuardBack? || actions[i].EnterWon? || actions[i].RemoveName?)
    decreases n
  {
    hide Step, Inv, AsksForItsOwnGuard;
    if m < n {
      SelfWaitIsForEver(states, who, actions, sources, m, n - 1, t);
      ReachableInv(states, who, actions, sources, n - 1);
      assert Step(states[n - 1], who[n - 1], actions[n - 1], sources, states[n]);
      SelfWaitStays(states[n - 1], t, who[n - 1], actions[n - 1], sources, states[n]);
    }
  }

  datatype Path = Path(states: seq<State>, who: seq<ThreadId>, actions: seq<Action>)

  ghost predicate Leads(p: Path, sources: map<string, SourceState>, s: State) {
    Execution(p.states, p.who, p.actions, sources) && p.states[|p.actions|] == s
  }

  lemma OneMore(p: Path, sources: map<string, SourceState>, s: State, t: ThreadId, a: Action, s': State)
    returns (q: Path)
    requires Leads(p, sources, s) && Step(s, t, a, sources, s')
    ensures Leads(q, sources, s')
  {
    hide Step, Initial;
    q := Path(p.states + [s'], p.who + [t], p.actions + [a]);
    assert q.states[0] == p.states[0];
  }

  /** A thread outside all bodies gets as far as the test of the held names. */
  lemma ComesToTest(p: Path, sources: map<string, SourceState>, s: State, t: ThreadId, plan: Plan)
    returns (q: Path, s': State)
    requires Leads(p, sources, s) && GateOpen(StateOf(sources, plan), plan)
    requires t in s.threads && s.threads[t] == Thread(Body, []) && s.guard == None
    ensures Leads(q, sources, s')
    ensures s' == Put(s, t, Thread(Testing(plan), [])).(guard := Some(t))
  {
    hide GateOpen, Leads;
    var s1, s2 := Put(s, t, Thread(AtGate(plan), [])), Put(s, t, Thread(WantGuard(plan), []));
    assert s2 == Put(s1, t, Thread(WantGuard(plan), []));
    s' := Put(s, t, Thread(Testing(plan), [])).(guard := Some(t));
    assert s' == Put(s2, t, Thread(Testing(plan), [])).(guard := Some(t));
    q := OneMore(p, sources, s, t, Call(plan), s1);
    q := OneMore(q, sources, s1, t, TestGate, s2);
    q := OneMore(q, sources, s2, t, TakeGuard, s');
  }

  lemma Wins(p: Path, sources: map<string, SourceState>, s: State, t: ThreadId, plan: Plan) returns (q: Path, s': State)
    requires Leads(p, sources, s) && t in s.threads && s.threads[t] == Thread(Testing(plan), [])
    requires NameOf(plan) !in s.held
    ensures Leads(q, sources, s') && s'.guard == None && NameOf(plan) in s'.held
    ensures forall u | u != t && u in s.threads :: u in s'.threads && s'.threads[u] == s.threads[u]
  {
    hide Leads;
    var s1 := Put(s, t, Thread(Added(plan), [])).(held := s.held + {NameOf(plan)});
    s' := Put(s1, t, Thread(Body, [] + [Frame(plan, true, true, Entered)])).(guard := None);
    q := OneMore(p, sources, s, t, AddName, s1);
    q := OneMore(q, sources, s1, t, EnterWon, s');
  }

  lemma LosesAndCalls(p: Path, sources: map<string, SourceState>, s: State, t: ThreadId, plan: Plan)
    returns (q: Path, s': State)
    requires Leads(p, sources, s) && GateOpen(StateOf(sources, plan), plan)
    requires t in s.threads && s.threads[t] == Thread(Testing(plan), []) && NameOf(plan) in s.held
    ensures Leads(q, sources, s') && t in s'.threads && AsksForItsOwnGuard(s'.threads[t])
  {
    hide GateOpen, Leads;
    var lost := [] + [Frame(plan, false, false, Entered)];
    var s1 := Put(s, t, Thread(Body, lost));
    var s2 := Put(s1, t, Thread(AtGate(plan), lost));
    s' := Put(s2, t, Thread(WantGuard(plan), lost));
    q := OneMore(p, sources, s, t, FindHeld, s1);
    q := OneMore(q, sources, s1, t, Call(plan), s2);
    q := OneMore(q, sources, s2, t, TestGate, s');
  }

  /** And it is reached, for every plan behind an open gate: one thread wins the name, a second loses it
      and calls `run_source_job` again. */
  lemma SelfWaitIsReachable(sources: map<string, SourceState>, plan: Plan, t: ThreadId, u: ThreadId) returns (p: Path)
    requires GateOpen(StateOf(sources, plan), plan) && t != u
    ensures Execution(p.states, p.who, p.actions, sources)
    ensures u in p.states[|p.actions|].threads && AsksForItsOwnGuard(p.states[|p.actions|].threads[u])
  {
    hide GateOpen, AsksForItsOwnGuard;
    var s := State(None, {}, map[t := Thread(Body, []), u := Thread(Body, [])]);
    p := Path([s], [], []);
    assert Leads(p, sources, s);
    p, s := ComesToTest(p, sources, s, t, plan);
    p, s := Wins(p, sources, s, t, plan);
    p, s := ComesToTest(p, sources, s, u, plan);
    p, s := LosesAndCalls(p, sources, s, u, plan);
  }
}
