/** The candidate limit of a field query: what it keeps of the window, when the order of the store
    shows in the answer, and when the two scene repositories keep the same scenes. */
module CandidateLimit {
  import opened Wrappers
  import opened Sequences
  import opened StableSorting
  import opened SortedPrefixes
  import opened FieldSelection

  lemma {:induction false} WindowCounted(scenes: seq<Scene>, date: int, window: nat, s: Scene)
    ensures multiset(InWindow(scenes, date, window))[s]
            == if Distance(s.date, date) <= window then multiset(scenes)[s] else 0
    decreases |scenes|
  {
    if |scenes| > 0 {
      var front, last := scenes[..|scenes| - 1], scenes[|scenes| - 1];
      assert scenes == front + [last];
      WindowCounted(front, date, window, s);
    }
  }

  lemma WindowForgetsOrder(scenes: seq<Scene>, permuted: seq<Scene>, date: int, window: nat)
    requires multiset(scenes) == multiset(permuted)
    ensures multiset(InWindow(scenes, date, window)) == multiset(InWindow(permuted, date, window))
  {
    forall s ensures multiset(InWindow(scenes, date, window))[s] == multiset(InWindow(permuted, date, window))[s] {
      WindowCounted(scenes, date, window, s);
      WindowCounted(permuted, date, window, s);
    }
  }

  lemma DistancesAreTotal(date: int)
    ensures TotalPreorder(ByDistanceAndTime(date))
  {
  }

  /** A scene of the window is a candidate, or the limit has cut it and no candidate is further away. */
  lemma CutAtTheFarEnd(scenes: seq<Scene>, settings: Settings, q: Query, window: nat, s: Scene, other: Scene)
    requires s in Candidates(scenes, settings, q, window)
    requires other in scenes && Distance(other.date, q.date) <= window
    ensures other in Candidates(scenes, settings, q, window)
            || (|InWindow(scenes, q.date, window)| > settings.maxScenes
                && Distance(s.date, q.date) <= Distance(other.date, q.date))
  {
    hide Sort, InWindow, Distance;
    var within := InWindow(scenes, q.date, window);
    var all := Sort(ByDistanceAndTime(q.date), within);
    var listed := ListCandidates(scenes, q.date, window, settings.maxScenes);
    DistancesAreTotal(q.date);
    SortSorts(ByDistanceAndTime(q.date), within);
    SameMembers(all, within);
    SameMembers(Candidates(scenes, settings, q, window), listed);
    WindowMembers(scenes, q.date, window, other);
    var i :| 0 <= i < |listed| && listed[i] == s;
    var j :| 0 <= j < |all| && all[j] == other;
    if j < |listed| {
      assert listed[j] == other;
    } else {
      assert ByDistanceAndTime(q.date)(all[i], all[j]);
    }
  }

  /** No admitted scene of the window lies nearer to the date than the choice, wherever the limit
      cuts, and where it does not cut the choice is the best of them all. */
  lemma ChoiceIsBestOfWindow(scenes: seq<Scene>, settings: Settings, q: Query, window: nat, other: Scene)
    requires other in scenes && Distance(other.date, q.date) <= window && Admitted(other, settings, q)
    ensures var choice := Choice(Candidates(scenes, settings, q, window), settings, q);
            && (choice.Some? ==> Distance(choice.value.date, q.date) <= Distance(other.date, q.date))
            && (|InWindow(scenes, q.date, window)| <= settings.maxScenes ==>
                  choice.Some? && Admitted(choice.value, settings, q) && NotWorse(choice.value, other, q.date))
  {
    hide Candidates, Choice, Admitted, InWindow, UsablePercentage;
    var candidates := Candidates(scenes, settings, q, window);
    var choice := Choice(candidates, settings, q);
    ChoiceIsBest(candidates, settings, q, other);
    if choice.Some? {
      CutAtTheFarEnd(scenes, settings, q, window, choice.value, other);
    } else if |InWindow(scenes, q.date, window)| <= settings.maxScenes {
      UncutHasAll(scenes, settings, q, window);
      SameMembers(candidates, InWindow(scenes, q.date, window));
      WindowMembers(scenes, q.date, window, other);
    }
  }

  lemma UncutHasAll(scenes: seq<Scene>, settings: Settings, q: Query, window: nat)
    requires |InWindow(scenes, q.date, window)| <= settings.maxScenes
    ensures multiset(Candidates(scenes, settings, q, window)) == multiset(InWindow(scenes, q.date, window))
  {
  }

  // ---- The order of the store ----

  /** The scenes of the window as the limit finds them. */
  function SortedWindow(scenes: seq<Scene>, date: int, window: nat): seq<Scene> {
    Sort(ByDistanceAndTime(date), InWindow(scenes, date, window))
  }

  /** The limit keeps one of two different scenes of equal distance and time and drops the other. */
  ghost predicate CutsTies(scenes: seq<Scene>, date: int, window: nat, limit: nat) {
    SplitsTie(ByDistanceAndTime(date), SortedWindow(scenes, date, window), limit)
  }

  lemma WindowIsSorted(scenes: seq<Scene>, date: int, window: nat)
    ensures TotalPreorder(ByDistanceAndTime(date))
    ensures SortedBy(ByDistanceAndTime(date), SortedWindow(scenes, date, window))
    ensures multiset(SortedWindow(scenes, date, window)) == multiset(InWindow(scenes, date, window))
  {
    hide Sort, InWindow, ByDistanceAndTime;
    DistancesAreTotal(date);
    SortSorts(ByDistanceAndTime(date), InWindow(scenes, date, window));
  }

  /** The limit finds the scenes of the window from the nearest to the farthest, the earlier first of two that
      are equally far. */
  lemma WindowOrder(scenes: seq<Scene>, date: int, window: nat, i: nat, j: nat)
    requires i < j < |SortedWindow(scenes, date, window)|
    ensures var s, t := SortedWindow(scenes, date, window)[i], SortedWindow(scenes, date, window)[j];
            var near, far := s.date - date, t.date - date;
            var d, e := if near < 0 then -near else near, if far < 0 then -far else far;
            d <= window && e <= window && (d < e || (d == e && s.time <= t.time))
  {
    WindowIsSorted(scenes, date, window);
    var all := SortedWindow(scenes, date, window);
    SameMembers(all, InWindow(scenes, date, window));
    WindowMembers(scenes, date, window, all[i]);
    WindowMembers(scenes, date, window, all[j]);
    assert all[i] in all && all[j] in all;
    assert ByDistanceAndTime(date)(all[i], all[j]);
  }

  lemma CandidatesAreKept(scenes: seq<Scene>, settings: Settings, q: Query, window: nat)
    ensures var all := SortedWindow(scenes, q.date, window);
            && multiset(Candidates(scenes, settings, q, window)) == multiset(Take(all, settings.maxScenes))
            && forall s :: s in Candidates(scenes, settings, q, window) <==> s in Take(all, settings.maxScenes)
  {
    hide Sort, InWindow;
    var all := SortedWindow(scenes, q.date, window);
    SameMembers(Candidates(scenes, settings, q, window), Take(all, settings.maxScenes));
  }

  /** Which scenes become candidates depends on which are stored and not on their order, unless the
      limit cuts between two that tie. */
  lemma CandidatesForgetOrder(scenes: seq<Scene>, permuted: seq<Scene>, settings: Settings, q: Query, window: nat)
    requires multiset(scenes) == multiset(permuted)
    requires !CutsTies(scenes, q.date, window, settings.maxScenes)
    ensures multiset(Candidates(scenes, settings, q, window)) == multiset(Candidates(permuted, settings, q, window))
  {
    hide Candidates, SplitsTie, InWindow, SortedWindow, SortedBy, TotalPreorder;
    var all, others := SortedWindow(scenes, q.date, window), SortedWindow(permuted, q.date, window);
    WindowForgetsOrder(scenes, permuted, q.date, window);
    WindowIsSorted(scenes, q.date, window);
    WindowIsSorted(permuted, q.date, window);
    SameMembers(all, others);
    CandidatesAreKept(scenes, settings, q, window);
    CandidatesAreKept(permuted, settings, q, window);
    if settings.maxScenes < |all| {
      KeptForgetsOrder(ByDistanceAndTime(q.date), all, others, settings.maxScenes);
    }
  }

  /** The stored scenes outside the window. */
  function Outside(scenes: seq<Scene>, date: int, window: nat): seq<Scene> {
    if |scenes| == 0 then [] else
      Outside(scenes[..|scenes| - 1], date, window)
      + if Distance(scenes[|scenes| - 1].date, date) <= window then [] else [scenes[|scenes| - 1]]
  }

  lemma {:induction false} Divided(scenes: seq<Scene>, date: int, window: nat)
    ensures multiset(scenes) == multiset(InWindow(scenes, date, window)) + multiset(Outside(scenes, date, window))
    ensures forall s | s in Outside(scenes, date, window) :: !(Distance(s.date, date) <= window)
    decreases |scenes|
  {
    hide Distance;
    if |scenes| > 0 {
      assert scenes == scenes[..|scenes| - 1] + [scenes[|scenes| - 1]];
      Divided(scenes[..|scenes| - 1], date, window);
    }
  }

  lemma {:induction false} WindowOf(inside: seq<Scene>, outside: seq<Scene>, date: int, window: nat)
    requires forall s | s in inside :: Distance(s.date, date) <= window
    requires forall s | s in outside :: !(Distance(s.date, date) <= window)
    ensures InWindow(inside + outside, date, window) == inside
    decreases |inside| + |outside|
  {
    hide Distance;
    if |outside| > 0 {
      assert (inside + outside)[..|inside + outside| - 1] == inside + outside[..|outside| - 1];
      WindowOf(inside, outside[..|outside| - 1], date, window);
    } else if |inside| > 0 {
      assert inside + outside == inside;
      assert inside[..|inside| - 1] + [] == inside[..|inside| - 1];
      WindowOf(inside[..|inside| - 1], [], date, window);
    }
  }

  /** Every sorted arrangement of the window is what the limit finds for some order of the store. */
  lemma Arranged(scenes: seq<Scene>, date: int, window: nat, all: seq<Scene>) returns (permuted: seq<Scene>)
    requires SortedBy(ByDistanceAndTime(date), all) && multiset(all) == multiset(InWindow(scenes, date, window))
    ensures multiset(permuted) == multiset(scenes) && SortedWindow(permuted, date, window) == all
  {
    hide InWindow, Sort, SortedBy, ByDistanceAndTime, Distance;
    permuted := all + Outside(scenes, date, window);
    Divided(scenes, date, window);
    SameMembers(all, InWindow(scenes, date, window));
    forall s | s in all ensures Distance(s.date, date) <= window { WindowMembers(scenes, date, window, s); }
    WindowOf(all, Outside(scenes, date, window), date, window);
    SortOfSorted(ByDistanceAndTime(date), all);
  }

  /** Two orders of the store of which one keeps the one and the other the other of two scenes that the
      limit cuts between. */
  lemma OtherScenesKept(scenes: seq<Scene>, settings: Settings, q: Query, window: nat, i: nat, j: nat)
    returns (permuted: seq<Scene>)
    requires i < settings.maxScenes <= j < |SortedWindow(scenes, q.date, window)|
    requires var all := SortedWindow(scenes, q.date, window);
             ByDistanceAndTime(q.date)(all[j], all[i]) && all[i] != all[j]
    ensures multiset(permuted) == multiset(scenes)
    ensures SortedWindow(permuted, q.date, window) == Swapped(SortedWindow(scenes, q.date, window), i, j)
    ensures var all := SortedWindow(scenes, q.date, window);
            var before := multiset(Candidates(scenes, settings, q, window));
            var after := multiset(Candidates(permuted, settings, q, window));
            after[all[j]] == before[all[j]] + 1 && after[all[i]] == before[all[i]] - 1
  {
    hide Candidates, InWindow, SortedWindow, SortedBy, TotalPreorder, ByDistanceAndTime;
    var all := SortedWindow(scenes, q.date, window);
    WindowIsSorted(scenes, q.date, window);
    SwapKeepsSorted(ByDistanceAndTime(q.date), all, i, j);
    permuted := Arranged(scenes, q.date, window, Swapped(all, i, j));
    SwapChangesKept(all, i, j, settings.maxScenes);
    CandidatesAreKept(scenes, settings, q, window);
    CandidatesAreKept(permuted, settings, q, window);
  }

  /** The order of the store decides which scenes become candidates exactly when the limit cuts between
      two different scenes of equal distance and time. */
  lemma CandidatesForgetOrderExactlyWhen(scenes: seq<Scene>, settings: Settings, q: Query, window: nat)
    ensures (forall permuted | multiset(permuted) == multiset(scenes) ::
               multiset(Candidates(permuted, settings, q, window)) == multiset(Candidates(scenes, settings, q, window)))
            <==> !CutsTies(scenes, q.date, window, settings.maxScenes)
  {
    hide Candidates, SortedWindow;
    var all := SortedWindow(scenes, q.date, window);
    if CutsTies(scenes, q.date, window, settings.maxScenes) {
      var i, j :| && 0 <= i < settings.maxScenes <= j < |all|
                  && ByDistanceAndTime(q.date)(all[j], all[i]) && all[i] != all[j];
      var permuted := OtherScenesKept(scenes, settings, q, window, i, j);
    } else {
      forall permuted | multiset(permuted) == multiset(scenes)
        ensures multiset(Candidates(permuted, settings, q, window)) == multiset(Candidates(scenes, settings, q, window))
      {
        CandidatesForgetOrder(scenes, permuted, settings, q, window);
      }
    }
  }

  lemma CandidatesAreScenes(scenes: seq<Scene>, settings: Settings, q: Query, window: nat, s: Scene)
    requires s in Candidates(scenes, settings, q, window)
    ensures s in scenes && Distance(s.date, q.date) <= window
  {
    hide Sort, InWindow;
    SameMembers(Candidates(scenes, settings, q, window), ListCandidates(scenes, q.date, window, settings.maxScenes));
    ListedAreScenes(scenes, q.date, window, settings.maxScenes, s);
  }

  /** Then the answer does not depend on it either. */
  lemma AnswerForgetsOrder(scenes: seq<Scene>, permuted: seq<Scene>, settings: Settings, q: Query, window: nat)
    requires multiset(scenes) == multiset(permuted) && DistinctProducts(scenes)
    requires !CutsTies(scenes, q.date, window, settings.maxScenes)
    ensures Choice(Candidates(scenes, settings, q, window), settings, q)
            == Choice(Candidates(permuted, settings, q, window), settings, q)
  {
    hide Candidates, Choice, CutsTies;
    var candidates := Candidates(scenes, settings, q, window);
    CandidatesForgetOrder(scenes, permuted, settings, q, window);
    forall s | s in candidates ensures s in scenes { CandidatesAreScenes(scenes, settings, q, window, s); }
    ChoiceForgetsOrder(candidates, Candidates(permuted, settings, q, window), settings, q);
  }

  // ---- When the order of the store shows in the answer ----

  ghost predicate UniqueProducts(scenes: seq<Scene>) {
    forall i, j | 0 <= i < j < |scenes| :: scenes[i].productId != scenes[j].productId
  }

  predicate Beats(s: Scene, t: Scene, q: Query) { KeyLeq(QualityKey(q.date)(s), QualityKey(q.date)(t)) }

  predicate StrictlyBefore(s: Scene, t: Scene, q: Query) { !ByDistanceAndTime(q.date)(t, s) }

  /** The limit cuts between `all[limit - 1]` and `all[limit]`, which tie. */
  predicate TieAtCut(all: seq<Scene>, limit: nat, q: Query) {
    0 < limit < |all| && ByDistanceAndTime(q.date)(all[limit], all[limit - 1])
  }

  predicate TiesWith(s: Scene, t: Scene, q: Query) {
    ByDistanceAndTime(q.date)(s, t) && ByDistanceAndTime(q.date)(t, s)
  }

  /** An admitted scene that ties with `pivot`, and that no admitted scene before the tie beats. */
  ghost predicate Contends(all: seq<Scene>, settings: Settings, q: Query, pivot: Scene, s: Scene) {
    && s in all && Admitted(s, settings, q) && TiesWith(s, pivot, q)
    && forall t | t in all && Admitted(t, settings, q) && StrictlyBefore(t, pivot, q) :: !Beats(t, s, q)
  }

  /** The limit cuts through a tie that holds a contender for the answer. */
  ghost predicate TieDecides(scenes: seq<Scene>, settings: Settings, q: Query, window: nat) {
    var all := SortedWindow(scenes, q.date, window);
    && TieAtCut(all, settings.maxScenes, q)
    && exists s :: Contends(all, settings, q, all[settings.maxScenes], s)
  }

  lemma SameProduct(scenes: seq<Scene>, s: Scene, t: Scene, q: Query)
    requires UniqueProducts(scenes) && s in scenes && t in scenes
    requires s.evidence.Measured? && t.evidence.Measured? && Beats(s, t, q) && Beats(t, s, q)
    ensures s == t
  {
    hide KeyLeq;
    KeysCompare(QualityKey(q.date)(s), QualityKey(q.date)(t));
    var i :| 0 <= i < |scenes| && scenes[i] == s;
    var j :| 0 <= j < |scenes| && scenes[j] == t;
  }

  lemma BeatsChains(s: Scene, t: Scene, u: Scene, q: Query)
    requires s.evidence.Measured? && t.evidence.Measured? && u.evidence.Measured? && Beats(s, t, q) && Beats(t, u, q)
    ensures Beats(s, u, q)
  {
    hide KeyLeq;
    KeysChain(QualityKey(q.date)(s), QualityKey(q.date)(t), QualityKey(q.date)(u));
  }

  lemma {:induction false} StoredOnce(scenes: seq<Scene>, s: Scene)
    requires UniqueProducts(scenes)
    ensures multiset(scenes)[s] <= 1
  {
    if |scenes| > 0 {
      var front, last := scenes[..|scenes| - 1], scenes[|scenes| - 1];
      assert scenes == front + [last];
      StoredOnce(front, s);
      assert s in multiset(front) <==> s in front;
    }
  }

  lemma SortedMembers(scenes: seq<Scene>, q: Query, window: nat, s: Scene)
    ensures s in SortedWindow(scenes, q.date, window) <==> s in scenes && Distance(s.date, q.date) <= window
  {
    hide Sort, InWindow, Distance;
    SameMembers(SortedWindow(scenes, q.date, window), InWindow(scenes, q.date, window));
    WindowMembers(scenes, q.date, window, s);
  }

  /** Whatever the order of the store, the candidates are no later than the first scene cut, and every
      scene before the tie is one of them. */
  lemma AroundTheCut(scenes: seq<Scene>, permuted: seq<Scene>, settings: Settings, q: Query, window: nat, s: Scene)
    requires multiset(scenes) == multiset(permuted)
    requires settings.maxScenes < |SortedWindow(scenes, q.date, window)|
    ensures var all := SortedWindow(scenes, q.date, window);
            var pivot := all[settings.maxScenes];
            && (s in Candidates(permuted, settings, q, window) ==> s in all && !StrictlyBefore(pivot, s, q))
            && (s in all && StrictlyBefore(s, pivot, q) ==> s in Candidates(permuted, settings, q, window))
  {
    hide Candidates, InWindow, SortedWindow, ByDistanceAndTime;
    var all, others := SortedWindow(scenes, q.date, window), SortedWindow(permuted, q.date, window);
    var n := settings.maxScenes;
    WindowForgetsOrder(scenes, permuted, q.date, window);
    WindowIsSorted(scenes, q.date, window);
    WindowIsSorted(permuted, q.date, window);
    SameMembers(all, others);
    CandidatesAreKept(permuted, settings, q, window);
    NotBefore(ByDistanceAndTime(q.date), all, others, n);
    NotBefore(ByDistanceAndTime(q.date), others, all, n);
    if s in others[..n] {
      var i :| 0 <= i < n && others[i] == s;
      assert ByDistanceAndTime(q.date)(others[i], others[n]);
    } else if s in all {
      var j :| 0 <= j < |others| && others[j] == s;
      assert j == n || ByDistanceAndTime(q.date)(others[n], others[j]);
    }
  }

  function TiedOptions(all: seq<Scene>, settings: Settings, q: Query, pivot: Scene): (r: seq<Scene>)
    ensures forall s :: s in r <==> s in all && Admitted(s, settings, q) && TiesWith(s, pivot, q)
  {
    if |all| == 0 then [] else
      var last := all[|all| - 1];
      TiedOptions(all[..|all| - 1], settings, q, pivot)
      + if Admitted(last, settings, q) && TiesWith(last, pivot, q) then [last] else []
  }

  /** Where there is a contender, the best admitted scene of the tie is one, and it is the answer exactly
      when it is a candidate. */
  lemma BestOfTie(scenes: seq<Scene>, settings: Settings, q: Query, window: nat) returns (best: Scene)
    requires UniqueProducts(scenes) && TieDecides(scenes, settings, q, window)
    ensures var all := SortedWindow(scenes, q.date, window);
            best in all && TiesWith(best, all[settings.maxScenes], q)
    ensures forall permuted | multiset(permuted) == multiset(scenes) ::
              Choice(Candidates(permuted, settings, q, window), settings, q) == Some(best)
              <==> best in Candidates(permuted, settings, q, window)
  {
    hide Candidates, Choice, SortedWindow, ByDistanceAndTime, UniqueProducts, KeyLeq, QualityKey;
    var all := SortedWindow(scenes, q.date, window);
    var pivot := all[settings.maxScenes];
    var u :| Contends(all, settings, q, pivot, u);
    var tied := TiedOptions(all, settings, q, pivot);
    best := LeastOf(tied, settings, q);
    forall t | t in all && Admitted(t, settings, q) && StrictlyBefore(t, pivot, q) ensures !Beats(t, best, q) {
      if Beats(t, best, q) { BeatsChains(t, best, u, q); }
    }
    forall permuted | multiset(permuted) == multiset(scenes)
      ensures Choice(Candidates(permuted, settings, q, window), settings, q) == Some(best)
              <==> best in Candidates(permuted, settings, q, window)
    {
      ContenderAnswers(scenes, permuted, settings, q, window, best);
    }
  }

  lemma LeastOf(tied: seq<Scene>, settings: Settings, q: Query) returns (best: Scene)
    requires |tied| > 0 && forall s | s in tied :: Admitted(s, settings, q)
    ensures best in tied && forall s | s in tied :: Beats(best, s, q)
  {
    best := FirstMin(QualityKey(q.date), tied);
    forall s | s in tied ensures Beats(best, s, q) { MinIsLeast(QualityKey(q.date), tied, s); }
  }

  lemma ContenderAnswers(scenes: seq<Scene>, permuted: seq<Scene>, settings: Settings, q: Query, window: nat,
                         best: Scene)
    requires UniqueProducts(scenes) && multiset(scenes) == multiset(permuted)
    requires var all := SortedWindow(scenes, q.date, window);
             && TieAtCut(all, settings.maxScenes, q)
             && Contends(all, settings, q, all[settings.maxScenes], best)
             && forall t | t in all && Admitted(t, settings, q) && TiesWith(t, all[settings.maxScenes], q) ::
                  Beats(best, t, q)
    ensures Choice(Candidates(permuted, settings, q, window), settings, q) == Some(best)
            <==> best in Candidates(permuted, settings, q, window)
  {
    hide Candidates, Choice, SortedWindow, ByDistanceAndTime, UniqueProducts, KeyLeq, QualityKey, NotWorse;
    var candidates := Candidates(permuted, settings, q, window);
    var choice := Choice(candidates, settings, q);
    ChoiceIsBest(candidates, settings, q, best);
    if best in candidates {
      var c := choice.value;
      AroundTheCut(scenes, permuted, settings, q, window, c);
      assert !StrictlyBefore(c, SortedWindow(scenes, q.date, window)[settings.maxScenes], q);
      SortedMembers(scenes, q, window, c);
      SortedMembers(scenes, q, window, best);
      SameProduct(scenes, c, best, q);
    }
  }

  lemma TieDecidesShows(scenes: seq<Scene>, settings: Settings, q: Query, window: nat) returns (permuted: seq<Scene>)
    requires UniqueProducts(scenes) && TieDecides(scenes, settings, q, window)
    ensures multiset(permuted) == multiset(scenes)
    ensures Choice(Candidates(permuted, settings, q, window), settings, q)
            != Choice(Candidates(scenes, settings, q, window), settings, q)
  {
    hide Candidates, Choice, SortedWindow, ByDistanceAndTime, InWindow, UniqueProducts;
    var all, n := SortedWindow(scenes, q.date, window), settings.maxScenes;
    var best := BestOfTie(scenes, settings, q, window);
    WindowIsSorted(scenes, q.date, window);
    CandidatesAreKept(scenes, settings, q, window);
    StoredOnce(scenes, best);
    WindowCounted(scenes, q.date, window, best);
    PartsOf(all, n);
    var m :| 0 <= m < |all| && all[m] == best;
    if m < n {
      AtMostOnce(all, m, n);
      permuted := OtherScenesKept(scenes, settings, q, window, m, n);
      assert all[m] in all[..n];
    } else {
      AtMostOnce(all, n - 1, m);
      permuted := OtherScenesKept(scenes, settings, q, window, n - 1, m);
      assert all[m] in all[n..];
    }
    CandidatesAreKept(permuted, settings, q, window);
  }

  lemma AtMostOnce(all: seq<Scene>, i: nat, j: nat)
    requires i < j < |all| && (multiset(all)[all[i]] <= 1 || multiset(all)[all[j]] <= 1)
    ensures all[i] != all[j]
  {
    assert all == all[..j] + [all[j]] + all[j + 1..];
    assert all[i] in multiset(all[..j]) by { assert all[i] in all[..j]; }
  }

  /** Without a contender the answer lies before the tie, for every order of the store. */
  lemma AnswerBeforeTie(scenes: seq<Scene>, permuted: seq<Scene>, settings: Settings, q: Query, window: nat)
    requires UniqueProducts(scenes) && multiset(scenes) == multiset(permuted)
    requires TieAtCut(SortedWindow(scenes, q.date, window), settings.maxScenes, q)
    requires !TieDecides(scenes, settings, q, window)
    ensures var choice := Choice(Candidates(permuted, settings, q, window), settings, q);
            && (choice.Some? ==>
                  && choice.value in SortedWindow(scenes, q.date, window) && Admitted(choice.value, settings, q)
                  && StrictlyBefore(choice.value, SortedWindow(scenes, q.date, window)[settings.maxScenes], q))
            && forall t | t in SortedWindow(scenes, q.date, window) && Admitted(t, settings, q)
                          && StrictlyBefore(t, SortedWindow(scenes, q.date, window)[settings.maxScenes], q) ::
                 choice.Some? && Beats(choice.value, t, q)
  {
    hide Candidates, Choice, SortedWindow, ByDistanceAndTime, UniqueProducts, KeyLeq, QualityKey, NotWorse;
    var all := SortedWindow(scenes, q.date, window);
    var pivot := all[settings.maxScenes];
    var candidates := Candidates(permuted, settings, q, window);
    var choice := Choice(candidates, settings, q);
    forall t | t in all && Admitted(t, settings, q) && StrictlyBefore(t, pivot, q)
      ensures choice.Some? && Beats(choice.value, t, q)
    {
      AroundTheCut(scenes, permuted, settings, q, window, t);
      ChoiceIsBest(candidates, settings, q, t);
    }
    if choice.Some? {
      var c := choice.value;
      ChoiceIsBest(candidates, settings, q, c);
      AroundTheCut(scenes, permuted, settings, q, window, c);
      if !StrictlyBefore(c, pivot, q) {
        assert !Contends(all, settings, q, pivot, c);
        var t :| t in all && Admitted(t, settings, q) && StrictlyBefore(t, pivot, q) && Beats(t, c, q);
        SortedMembers(scenes, q, window, c);
        SortedMembers(scenes, q, window, t);
        SameProduct(scenes, c, t, q);
      }
    }
  }

  lemma SplitMeansTieAtCut(all: seq<Scene>, limit: nat, q: Query)
    requires TotalPreorder(ByDistanceAndTime(q.date)) && SortedBy(ByDistanceAndTime(q.date), all)
    ensures SplitsTie(ByDistanceAndTime(q.date), all, limit) ==> TieAtCut(all, limit, q)
  {
    hide ByDistanceAndTime;
    var leq := ByDistanceAndTime(q.date);
    if i, j :| 0 <= i < limit <= j < |all| && leq(all[j], all[i]) && all[i] != all[j] {
      assert j == limit || leq(all[limit], all[j]);
      assert i == limit - 1 || leq(all[i], all[limit - 1]);
    }
  }

  /** The order of the store decides the answer exactly when the limit cuts through a tie that holds an
      admitted scene which no admitted scene before the tie beats. */
  lemma AnswerForgetsOrderExactlyWhen(scenes: seq<Scene>, settings: Settings, q: Query, window: nat)
    requires UniqueProducts(scenes)
    ensures (forall permuted | multiset(permuted) == multiset(scenes) ::
               Choice(Candidates(permuted, settings, q, window), settings, q)
               == Choice(Candidates(scenes, settings, q, window), settings, q))
            <==> !TieDecides(scenes, settings, q, window)
  {
    hide Candidates, Choice, TieDecides, UniqueProducts;
    if TieDecides(scenes, settings, q, window) {
      var permuted := TieDecidesShows(scenes, settings, q, window);
    } else {
      forall permuted | multiset(permuted) == multiset(scenes)
        ensures Choice(Candidates(permuted, settings, q, window), settings, q)
                == Choice(Candidates(scenes, settings, q, window), settings, q)
      {
        UndecidedAnswer(scenes, permuted, settings, q, window);
      }
    }
  }

  lemma UniqueIsDistinct(scenes: seq<Scene>)
    requires UniqueProducts(scenes)
    ensures DistinctProducts(scenes)
  {
  }

  lemma UndecidedAnswer(scenes: seq<Scene>, permuted: seq<Scene>, settings: Settings, q: Query, window: nat)
    requires UniqueProducts(scenes) && multiset(permuted) == multiset(scenes)
    requires !TieDecides(scenes, settings, q, window)
    ensures Choice(Candidates(permuted, settings, q, window), settings, q)
            == Choice(Candidates(scenes, settings, q, window), settings, q)
  {
    hide Candidates, Choice, TieDecides, UniqueProducts, SortedWindow, ByDistanceAndTime, KeyLeq, QualityKey;
    hide DistinctProducts, SplitsTie, TotalPreorder, SortedBy;
    var all := SortedWindow(scenes, q.date, window);
    if TieAtCut(all, settings.maxScenes, q) {
      AnswerBeforeTie(scenes, scenes, settings, q, window);
      AnswerBeforeTie(scenes, permuted, settings, q, window);
      var a := Choice(Candidates(scenes, settings, q, window), settings, q);
      var b := Choice(Candidates(permuted, settings, q, window), settings, q);
      if a.Some? && b.Some? {
        SortedMembers(scenes, q, window, a.value);
        SortedMembers(scenes, q, window, b.value);
        SameProduct(scenes, a.value, b.value, q);
      }
    } else {
      UniqueIsDistinct(scenes);
      WindowIsSorted(scenes, q.date, window);
      SplitMeansTieAtCut(all, settings.maxScenes, q);
      AnswerForgetsOrder(scenes, permuted, settings, q, window);
    }
  }

  /** Of two tied scenes a limit of one keeps the one that the store holds first. */
  lemma CutTiesFollowTheStore(s: Scene, t: Scene, settings: Settings, q: Query, window: nat)
    requires s.date == t.date && s.time == t.time && Distance(s.date, q.date) <= window
    requires Admitted(s, settings, q) && Admitted(t, settings, q) && settings.maxScenes == 1
    ensures Choice(Candidates([s, t], settings, q, window), settings, q) == Some(s)
    ensures Choice(Candidates([t, s], settings, q, window), settings, q) == Some(t)
  {
    OneIsChosen(s, t, settings, q, window);
    OneIsChosen(t, s, settings, q, window);
  }

  lemma OneIsChosen(s: Scene, t: Scene, settings: Settings, q: Query, window: nat)
    requires s.date == t.date && s.time == t.time && Distance(s.date, q.date) <= window
    requires Admitted(s, settings, q) && settings.maxScenes == 1
    ensures Choice(Candidates([s, t], settings, q, window), settings, q) == Some(s)
  {
    hide Admitted, KeyLeq, QualityKey, Distance;
    assert [s, t][..1] == [s];
    assert InWindow([s], q.date, window) == [s];
    assert InWindow([s, t], q.date, window) == [s, t];
    assert Sort(ByDistanceAndTime(q.date), [s]) == [s];
    assert Sort(ByDistanceAndTime(q.date), [s, t]) == [s, t];
    assert ListCandidates([s, t], q.date, window, 1) == [s];
    assert Sort(ByPrefilter(q.date), [s]) == [s];
    assert Options([s], settings, q) == [s];
  }

  // ---- The SQL repository ----

  /** The `ORDER BY` of the SQL query: among scenes of equal distance the later come first. */
  function ByDistanceAndLaterTime(date: int): (Scene, Scene) -> bool {
    (a: Scene, b: Scene) =>
      Distance(a.date, date) < Distance(b.date, date)
      || (Distance(a.date, date) == Distance(b.date, date) && a.time >= b.time)
  }

  function SqlWindow(scenes: seq<Scene>, date: int, window: nat): seq<Scene> {
    Sort(ByDistanceAndLaterTime(date), InWindow(scenes, date, window))
  }

  /** `list_candidates` of the SQL repository. */
  function SqlListCandidates(scenes: seq<Scene>, date: int, window: nat, limit: nat): seq<Scene> {
    Take(SqlWindow(scenes, date, window), limit)
  }

  function ByDistance(date: int): (Scene, Scene) -> bool {
    (a: Scene, b: Scene) => Distance(a.date, date) <= Distance(b.date, date)
  }

  /** The limit keeps one of two different scenes of equal distance and drops the other. */
  ghost predicate CutsWithinDistance(scenes: seq<Scene>, date: int, window: nat, limit: nat) {
    SplitsTie(ByDistance(date), SortedWindow(scenes, date, window), limit)
  }

  lemma SqlWindowIsSorted(scenes: seq<Scene>, date: int, window: nat)
    ensures SortedBy(ByDistanceAndLaterTime(date), SqlWindow(scenes, date, window))
    ensures multiset(SqlWindow(scenes, date, window)) == multiset(InWindow(scenes, date, window))
  {
    hide Sort, InWindow, SortedBy;
    assert TotalPreorder(ByDistanceAndLaterTime(date));
    SortSorts(ByDistanceAndLaterTime(date), InWindow(scenes, date, window));
  }

  lemma BothSortedByDistance(date: int, xs: seq<Scene>)
    ensures TotalPreorder(ByDistance(date))
    ensures SortedBy(ByDistanceAndTime(date), xs) || SortedBy(ByDistanceAndLaterTime(date), xs)
            ==> SortedBy(ByDistance(date), xs)
  {
  }

  /** Where no two scenes of the window tie on distance and time, the in-memory and the SQL repository
      give the same candidates exactly when the limit does not cut between scenes of equal distance. */
  lemma RepositoriesAgreeExactlyWhen(scenes: seq<Scene>, date: int, window: nat, limit: nat)
    requires DistinctKeys(ByDistanceAndTime(date), InWindow(scenes, date, window))
    ensures multiset(ListCandidates(scenes, date, window, limit))
            == multiset(SqlListCandidates(scenes, date, window, limit))
            <==> !CutsWithinDistance(scenes, date, window, limit)
  {
    hide Sort, InWindow, SortedBy, TotalPreorder, Distance, DistinctKeys;
    var mem, sql := SortedWindow(scenes, date, window), SqlWindow(scenes, date, window);
    WindowIsSorted(scenes, date, window);
    SqlWindowIsSorted(scenes, date, window);
    SameMembers(mem, sql);
    if limit < |mem| {
      if CutsWithinDistance(scenes, date, window, limit) {
        var i, j :| 0 <= i < limit <= j < |mem| && ByDistance(date)(mem[j], mem[i]) && mem[i] != mem[j];
        DifferWithin(scenes, date, window, limit, i, j);
      } else {
        BothSortedByDistance(date, mem);
        BothSortedByDistance(date, sql);
        KeptForgetsOrder(ByDistance(date), mem, sql, limit);
      }
    }
  }

  lemma RestAgrees<T>(xs: seq<T>, ys: seq<T>, n: nat)
    requires multiset(xs) == multiset(ys) && n <= |xs| == |ys| && multiset(xs[..n]) == multiset(ys[..n])
    ensures multiset(xs[n..]) == multiset(ys[n..])
  {
    PartsOf(xs, n);
    PartsOf(ys, n);
    assert multiset(xs[n..]) == multiset(xs) - multiset(xs[..n]);
    assert multiset(ys[n..]) == multiset(ys) - multiset(ys[..n]);
  }

  lemma DifferWithin(scenes: seq<Scene>, date: int, window: nat, limit: nat, i: nat, j: nat)
    requires DistinctKeys(ByDistanceAndTime(date), InWindow(scenes, date, window))
    requires i < limit <= j < |SortedWindow(scenes, date, window)| == |SqlWindow(scenes, date, window)|
    requires var mem := SortedWindow(scenes, date, window);
             ByDistance(date)(mem[j], mem[i]) && mem[i] != mem[j]
    ensures multiset(SortedWindow(scenes, date, window)[..limit]) != multiset(SqlWindow(scenes, date, window)[..limit])
  {
    hide Sort, InWindow, Distance, TotalPreorder;
    var mem, sql := SortedWindow(scenes, date, window), SqlWindow(scenes, date, window);
    WindowIsSorted(scenes, date, window);
    SqlWindowIsSorted(scenes, date, window);
    SameMembers(mem, InWindow(scenes, date, window));
    assert mem[i] in mem && mem[j] in mem;
    var a :| 0 <= a < |InWindow(scenes, date, window)| && InWindow(scenes, date, window)[a] == mem[i];
    var b :| 0 <= b < |InWindow(scenes, date, window)| && InWindow(scenes, date, window)[b] == mem[j];
    assert ByDistanceAndTime(date)(mem[i], mem[j]);
    var kept, sqlKept := mem[..limit], sql[..limit];
    var cut, sqlCut := mem[limit..], sql[limit..];
    assert mem[i] in kept && mem[j] in cut;
    if multiset(kept) == multiset(sqlKept) {
      RestAgrees(mem, sql, limit);
      SameMembers(kept, sqlKept);
      SameMembers(cut, sqlCut);
      assert false;
    }
  }
}
