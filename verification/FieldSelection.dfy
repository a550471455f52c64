/** The choice of a scene for a field and a date, the separately coded explanation of why there is
    none, and the response validator both have to satisfy. Dates are day numbers. */
module FieldSelection {
  import opened Wrappers
  import opened Floats
  import opened PixelGrid
  import opened Sequences
  import opened StableSorting
  import opened FieldWindow
  import F = FieldStats

  datatype Source = Sentinel2 | Landsat | ResourceSat

  /** `_mask_class_policy`. */
  function MaskPolicy(source: Source): F.ClassPolicy {
    match source
    case Landsat => F.ClassPolicy({0}, {1, 4}, {2, 5}, {3})
    case ResourceSat => F.ClassPolicy({0}, {1, 4}, {2}, {3})
    case Sentinel2 => F.ClassPolicy({0}, {4, 5, 6}, {8, 9, 10}, {3})
  }

  datatype IndexReading = IndexReading(validPixels: nat, usablePercentage: real)

  /** What reading a scene for the field gives: no index raster, an error, no mask, or numbers. */
  datatype Evidence = NoRaster | Unreadable | NoMask | Measured(index: IndexReading, mask: F.MaskStats)

  datatype Scene = Scene(productId: string, date: int, time: int, cloudPercent: Option<real>,
                         coveragePercent: Option<real>, resolution: real, exactDateComposite: bool, evidence: Evidence)

  datatype Settings = Settings(minUsablePixels: nat, minCoverage: real, maxScenes: nat)

  datatype Query = Query(source: Source, date: int, maxCloud: real)

  predicate Percentage(x: real) { 0.0 <= x <= 100.0 }

  /** Numbers that a read can return. */
  predicate Plausible(e: Evidence) {
    e.Measured? ==>
      && (e.mask.fieldPixels == 0 ==> e.mask.usable == 0)
      && Percentage(e.index.usablePercentage) && Percentage(e.mask.usablePercent) && Percentage(e.mask.coveragePercent)
      && Percentage(e.mask.cloudPercent) && Percentage(e.mask.shadowPercent) && Percentage(e.mask.obscuredPercent)
  }

  /** Every windowed read under a source's own class policy is plausible. */
  lemma ReadsArePlausible(source: Source, g: Raster, b: Bounds, values: Grid<Float>, mask: Grid<int>,
                          field: F.Membership, request: F.Request)
    requires values.height == mask.height == g.height && values.width == mask.width == g.width
    requires F.WithinBounds(g, b, field)
    ensures var s := F.RasterStats(g, b, values, field, request);
            Plausible(Measured(IndexReading(s.validPixels, s.usablePercentage),
                               F.CategoricalMaskStats(g, b, mask, field, MaskPolicy(source))))
  {
    hide F.StatsOf, F.RasterStats, F.CategoricalMaskStats, F.WithinBounds;
    F.WindowedStatsAreFull(g, b, values, field, request);
    F.UsableShareInRange(g, values, field, request);
    F.WindowedMaskStatsAreFull(g, b, mask, field, MaskPolicy(source));
    F.MaskStatsConserve(mask, field, MaskPolicy(source));
    EmptyFieldHasNoUsable(mask, field, MaskPolicy(source));
  }

  lemma EmptyFieldHasNoUsable(mask: Grid<int>, field: F.Membership, policy: F.ClassPolicy)
    ensures F.MaskStatsOf(mask, field, policy).fieldPixels == 0 ==> F.MaskStatsOf(mask, field, policy).usable == 0
  {
  }

  // ---- Orders ----

  /** The order of strings by code point. */
  predicate StringLeq(a: string, b: string) {
    |a| == 0 || (|b| > 0 && (a[0] < b[0] || (a[0] == b[0] && StringLeq(a[1..], b[1..]))))
  }

  lemma {:induction false} StringsCompare(a: string, b: string)
    ensures StringLeq(a, b) || StringLeq(b, a)
    ensures StringLeq(a, b) && StringLeq(b, a) ==> a == b
    decreases |a|
  {
    if |a| > 0 && |b| > 0 && a[0] == b[0] {
      StringsCompare(a[1..], b[1..]);
      assert a == [a[0]] + a[1..] && b == [b[0]] + b[1..];
    }
  }

  lemma {:induction false} StringsChain(a: string, b: string, c: string)
    requires StringLeq(a, b) && StringLeq(b, c)
    ensures StringLeq(a, c)
    decreases |a|
  {
    if |a| > 0 && a[0] == b[0] && b[0] == c[0] {
      StringsChain(a[1..], b[1..], c[1..]);
    }
  }

  /** A tuple of an integer, reals and a string, compared as Python compares tuples. */
  datatype Key = Key(first: int, numbers: seq<real>, last: string)

  predicate NumbersBefore(a: seq<real>, b: seq<real>)
    requires |a| == |b|
  {
    |a| > 0 && (a[0] < b[0] || (a[0] == b[0] && NumbersBefore(a[1..], b[1..])))
  }

  predicate KeyLeq(a: Key, b: Key)
    requires |a.numbers| == |b.numbers|
  {
    || a.first < b.first
    || (a.first == b.first && NumbersBefore(a.numbers, b.numbers))
    || (a.first == b.first && a.numbers == b.numbers && StringLeq(a.last, b.last))
  }

  lemma {:induction false} NumbersCompare(a: seq<real>, b: seq<real>)
    requires |a| == |b|
    ensures NumbersBefore(a, b) || NumbersBefore(b, a) || a == b
    ensures !(NumbersBefore(a, b) && NumbersBefore(b, a)) && (a == b ==> !NumbersBefore(a, b))
    decreases |a|
  {
    if |a| > 0 {
      NumbersCompare(a[1..], b[1..]);
      assert a == [a[0]] + a[1..] && b == [b[0]] + b[1..];
    }
  }

  lemma {:induction false} NumbersChain(a: seq<real>, b: seq<real>, c: seq<real>)
    requires |a| == |b| == |c| && NumbersBefore(a, b) && NumbersBefore(b, c)
    ensures NumbersBefore(a, c)
    decreases |a|
  {
    if a[0] == b[0] && b[0] == c[0] {
      NumbersChain(a[1..], b[1..], c[1..]);
    }
  }

  lemma KeysCompare(a: Key, b: Key)
    requires |a.numbers| == |b.numbers|
    ensures KeyLeq(a, b) || KeyLeq(b, a)
    ensures KeyLeq(a, b) && KeyLeq(b, a) ==> a == b
  {
    NumbersCompare(a.numbers, b.numbers);
    StringsCompare(a.last, b.last);
  }

  lemma KeysChain(a: Key, b: Key, c: Key)
    requires |a.numbers| == |b.numbers| == |c.numbers| && KeyLeq(a, b) && KeyLeq(b, c)
    ensures KeyLeq(a, c)
  {
    if a.first == b.first == c.first {
      if NumbersBefore(a.numbers, b.numbers) && NumbersBefore(b.numbers, c.numbers) {
        NumbersChain(a.numbers, b.numbers, c.numbers);
      } else if a.numbers == b.numbers == c.numbers {
        StringsChain(a.last, b.last, c.last);
      }
    }
  }

  /** The library's `min(xs, key=...)`: the first of the least elements. */
  function FirstMin<T>(key: T -> Key, xs: seq<T>): (m: T)
    requires |xs| > 0
    requires forall x, y | x in xs && y in xs :: |key(x).numbers| == |key(y).numbers|
    ensures m in xs
  {
    if |xs| == 1 then xs[0] else
      var best := FirstMin(key, xs[..|xs| - 1]);
      if KeyLeq(key(best), key(xs[|xs| - 1])) then best else xs[|xs| - 1]
  }

  lemma {:induction false} MinIsLeast<T>(key: T -> Key, xs: seq<T>, x: T)
    requires |xs| > 0 && x in xs
    requires forall y, z | y in xs && z in xs :: |key(y).numbers| == |key(z).numbers|
    ensures FirstMin(key, xs) in xs && KeyLeq(key(FirstMin(key, xs)), key(x))
    decreases |xs|
  {
    var front, last := xs[..|xs| - 1], xs[|xs| - 1];
    if |xs| == 1 {
      KeysCompare(key(x), key(x));
    } else {
      var best := FirstMin(key, front);
      KeysCompare(key(best), key(last));
      KeysCompare(key(last), key(last));
      if x in front {
        MinIsLeast(key, front, x);
        if !KeyLeq(key(best), key(last)) {
          KeysChain(key(last), key(best), key(x));
        }
      } else {
        assert x == last;
      }
    }
  }

  /** The least element depends on the elements only, where no two different ones share a key. */
  lemma MinForgetsOrder<T>(key: T -> Key, xs: seq<T>, ys: seq<T>)
    requires |xs| > 0 && multiset(xs) == multiset(ys)
    requires forall x, y | x in xs && y in xs :: |key(x).numbers| == |key(y).numbers|
    requires forall x, y | x in xs && y in xs && key(x) == key(y) :: x == y
    ensures |ys| > 0 && (forall x, y | x in ys && y in ys :: |key(x).numbers| == |key(y).numbers|)
    ensures FirstMin(key, xs) == FirstMin(key, ys)
  {
    SameMembers(xs, ys);
    var a, b := FirstMin(key, xs), FirstMin(key, ys);
    MinIsLeast(key, xs, b);
    MinIsLeast(key, ys, a);
    KeysCompare(key(a), key(b));
  }

  // ---- Candidates ----

  function Distance(a: int, b: int): int { if a < b then b - a else a - b }

  function InWindow(scenes: seq<Scene>, date: int, window: nat): seq<Scene> {
    if |scenes| == 0 then [] else
      InWindow(scenes[..|scenes| - 1], date, window)
      + if Distance(scenes[|scenes| - 1].date, date) <= window then [scenes[|scenes| - 1]] else []
  }

  function ByDistanceAndTime(date: int): (Scene, Scene) -> bool {
    (a: Scene, b: Scene) =>
      Distance(a.date, date) < Distance(b.date, date)
      || (Distance(a.date, date) == Distance(b.date, date) && a.time <= b.time)
  }

  /** `list_candidates` of the in-memory repository, for the scenes of one source. */
  function ListCandidates(scenes: seq<Scene>, date: int, window: nat, limit: nat): seq<Scene> {
    Take(Sort(ByDistanceAndTime(date), InWindow(scenes, date, window)), limit)
  }

  function PrefilterKey(s: Scene, date: int): Key {
    Key(Distance(s.date, date),
        [if s.cloudPercent.Some? then s.cloudPercent.value else 101.0,
         if s.coveragePercent.Some? then -s.coveragePercent.value else 0.0, s.resolution], s.productId)
  }

  function ByPrefilter(date: int): (Scene, Scene) -> bool {
    (a: Scene, b: Scene) => KeyLeq(PrefilterKey(a, date), PrefilterKey(b, date))
  }

  function Lower(a: real, b: real): real { if b < a then b else a }

  function Fewer(a: nat, b: nat): nat { if b < a then b else a }

  function ValidPixels(e: Evidence): nat
    requires e.Measured?
  {
    Fewer(e.index.validPixels, e.mask.usable)
  }

  function UsablePercentage(e: Evidence): real
    requires e.Measured?
  {
    Lower(e.index.usablePercentage, e.mask.usablePercent)
  }

  /** The tests of `_candidate_options`, in its order. */
  predicate Admitted(s: Scene, settings: Settings, q: Query) {
    && (q.source == ResourceSat ==> s.exactDateComposite)
    && s.evidence.Measured?
    && !(ValidPixels(s.evidence) < settings.minUsablePixels)
    && !(s.evidence.mask.coveragePercent < settings.minCoverage)
    && !(s.evidence.mask.obscuredPercent > q.maxCloud)
  }

  predicate CountsAsFailure(s: Scene, q: Query) {
    (q.source == ResourceSat ==> s.exactDateComposite) && s.evidence.Unreadable?
  }

  function Options(scenes: seq<Scene>, settings: Settings, q: Query): seq<Scene> {
    if |scenes| == 0 then [] else
      Options(scenes[..|scenes| - 1], settings, q)
      + if Admitted(scenes[|scenes| - 1], settings, q) then [scenes[|scenes| - 1]] else []
  }

  function Failures(scenes: seq<Scene>, q: Query): nat {
    if |scenes| == 0 then 0 else
      Failures(scenes[..|scenes| - 1], q) + if CountsAsFailure(scenes[|scenes| - 1], q) then 1 else 0
  }

  function Candidates(scenes: seq<Scene>, settings: Settings, q: Query, window: nat): seq<Scene> {
    Sort(ByPrefilter(q.date), ListCandidates(scenes, q.date, window, settings.maxScenes))
  }

  /** `_candidate_options`. */
  method CandidateOptions(scenes: seq<Scene>, settings: Settings, q: Query, window: nat)
    returns (options: seq<Scene>, failures: nat)
    ensures options == Options(Candidates(scenes, settings, q, window), settings, q)
    ensures failures == Failures(Candidates(scenes, settings, q, window), q)
  {
    hide Candidates;
    var candidates := Candidates(scenes, settings, q, window);
    options, failures := [], 0;
    for i := 0 to |candidates|
      invariant options == Options(candidates[..i], settings, q)
      invariant failures == Failures(candidates[..i], q)
    {
      assert candidates[..i + 1][..i] == candidates[..i];
      var s := candidates[i];
      if q.source == ResourceSat && !s.exactDateComposite {
        continue;
      }
      match s.evidence {
        case NoRaster =>
        case Unreadable => failures := failures + 1;
        case NoMask =>
        case Measured(_, mask) =>
          if ValidPixels(s.evidence) < settings.minUsablePixels {
            continue;
          }
          if mask.coveragePercent < settings.minCoverage {
            continue;
          }
          if mask.obscuredPercent > q.maxCloud {
            continue;
          }
          options := options + [s];
      }
    }
    assert candidates[..|candidates|] == candidates;
  }

  function QualityKey(date: int): Scene -> Key {
    (s: Scene) =>
      if s.evidence.Measured? then
        Key(Distance(s.date, date),
            [-UsablePercentage(s.evidence), -s.evidence.mask.coveragePercent, s.evidence.mask.obscuredPercent,
             s.resolution],
            s.productId)
      else Key(Distance(s.date, date), [0.0, 0.0, 0.0, s.resolution], s.productId)
  }

  /** What the quality key means: the nearer date, then more usable pixels, more coverage, less
      cover, the finer resolution and the lesser product id. */
  predicate NotWorse(s: Scene, t: Scene, date: int)
    requires s.evidence.Measured? && t.evidence.Measured?
  {
    var a, b := s.evidence, t.evidence;
    if Distance(s.date, date) != Distance(t.date, date) then Distance(s.date, date) < Distance(t.date, date)
    else if UsablePercentage(a) != UsablePercentage(b) then UsablePercentage(a) > UsablePercentage(b)
    else if a.mask.coveragePercent != b.mask.coveragePercent then a.mask.coveragePercent > b.mask.coveragePercent
    else if a.mask.obscuredPercent != b.mask.obscuredPercent then a.mask.obscuredPercent < b.mask.obscuredPercent
    else if s.resolution != t.resolution then s.resolution < t.resolution
    else StringLeq(s.productId, t.productId)
  }

  lemma QualityKeyMeans(s: Scene, t: Scene, date: int)
    requires s.evidence.Measured? && t.evidence.Measured?
    ensures KeyLeq(QualityKey(date)(s), QualityKey(date)(t)) <==> NotWorse(s, t, date)
  {
    hide UsablePercentage, StringLeq;
    var x, y := QualityKey(date)(s).numbers, QualityKey(date)(t).numbers;
    Numbers4Before(x, y);
    assert x == [x[0], x[1], x[2], x[3]] && y == [y[0], y[1], y[2], y[3]];
  }

  lemma Numbers4Before(x: seq<real>, y: seq<real>)
    requires |x| == |y| == 4
    ensures NumbersBefore(x, y) <==>
              if x[0] != y[0] then x[0] < y[0] else if x[1] != y[1] then x[1] < y[1]
              else if x[2] != y[2] then x[2] < y[2] else x[3] < y[3]
  {
    var x1, y1 := x[1..], y[1..];
    var x2, y2 := x1[1..], y1[1..];
    var x3, y3 := x2[1..], y2[1..];
    assert NumbersBefore(x3, y3) <==> x[3] < y[3];
    assert NumbersBefore(x2, y2) <==> if x[2] != y[2] then x[2] < y[2] else x[3] < y[3];
    assert NumbersBefore(x1, y1) <==> x[1] < y[1] || (x[1] == y[1] && NumbersBefore(x2, y2));
  }

  /** The scene that answers a query, if any is admitted. */
  function Choice(candidates: seq<Scene>, settings: Settings, q: Query): Option<Scene> {
    var options := Options(candidates, settings, q);
    if |options| == 0 then None else Some(FirstMin(QualityKey(q.date), options))
  }

  lemma {:induction false} OptionsAre(scenes: seq<Scene>, settings: Settings, q: Query, s: Scene)
    ensures s in Options(scenes, settings, q) <==> s in scenes && Admitted(s, settings, q)
    decreases |scenes|
  {
    hide Admitted;
    if |scenes| > 0 {
      OptionsAre(scenes[..|scenes| - 1], settings, q, s);
    }
  }

  /** The choice is an admitted candidate that no admitted candidate beats, and there is none
      exactly when no candidate is admitted. */
  lemma ChoiceIsBest(candidates: seq<Scene>, settings: Settings, q: Query, other: Scene)
    ensures var choice := Choice(candidates, settings, q);
            && (choice.Some? ==> choice.value in candidates && Admitted(choice.value, settings, q))
            && (other in candidates && Admitted(other, settings, q) ==>
                  choice.Some? && KeyLeq(QualityKey(q.date)(choice.value), QualityKey(q.date)(other))
                  && NotWorse(choice.value, other, q.date))
  {
    hide KeyLeq, NotWorse;
    var options := Options(candidates, settings, q);
    OptionsAre(candidates, settings, q, other);
    if |options| > 0 {
      OptionsAre(candidates, settings, q, FirstMin(QualityKey(q.date), options));
      if other in options {
        MinIsLeast(QualityKey(q.date), options, other);
        QualityKeyMeans(FirstMin(QualityKey(q.date), options), other, q.date);
      }
    }
  }

  ghost predicate DistinctProducts(scenes: seq<Scene>) {
    forall a, b | a in scenes && b in scenes && a.productId == b.productId :: a == b
  }

  lemma {:induction false} OptionsCounted(scenes: seq<Scene>, settings: Settings, q: Query, s: Scene)
    ensures multiset(Options(scenes, settings, q))[s] == if Admitted(s, settings, q) then multiset(scenes)[s] else 0
    decreases |scenes|
  {
    hide Admitted;
    if |scenes| > 0 {
      var front, last := scenes[..|scenes| - 1], scenes[|scenes| - 1];
      assert scenes == front + [last];
      OptionsCounted(front, settings, q, s);
    }
  }

  /** The choice depends on which scenes are candidates, not on their order, so not on the
      prefilter sort either. */
  lemma ChoiceForgetsOrder(xs: seq<Scene>, ys: seq<Scene>, settings: Settings, q: Query)
    requires multiset(xs) == multiset(ys) && DistinctProducts(xs)
    ensures Choice(xs, settings, q) == Choice(ys, settings, q)
  {
    hide Admitted, KeyLeq;
    var a, b := Options(xs, settings, q), Options(ys, settings, q);
    forall s ensures multiset(a)[s] == multiset(b)[s] {
      OptionsCounted(xs, settings, q, s);
      OptionsCounted(ys, settings, q, s);
    }
    assert multiset(a) == multiset(b);
    SameMembers(a, b);
    if |a| > 0 {
      forall x, y | x in a && y in a && QualityKey(q.date)(x) == QualityKey(q.date)(y) ensures x == y {
        OptionsAre(xs, settings, q, x);
        OptionsAre(xs, settings, q, y);
        assert x.productId == y.productId;
      }
      MinForgetsOrder(QualityKey(q.date), a, b);
    }
  }

  lemma PrefilterDoesNotMatter(scenes: seq<Scene>, settings: Settings, q: Query, window: nat)
    requires DistinctProducts(scenes)
    ensures Choice(Candidates(scenes, settings, q, window), settings, q)
            == Choice(ListCandidates(scenes, q.date, window, settings.maxScenes), settings, q)
  {
    hide KeyLeq, Options, FirstMin;
    var listed := ListCandidates(scenes, q.date, window, settings.maxScenes);
    var sorted := Candidates(scenes, settings, q, window);
    forall s | s in sorted ensures s in scenes {
      SameMembers(sorted, listed);
      ListedAreScenes(scenes, q.date, window, settings.maxScenes, s);
    }
    ChoiceForgetsOrder(sorted, listed, settings, q);
  }

  lemma {:induction false} WindowMembers(scenes: seq<Scene>, date: int, window: nat, s: Scene)
    ensures s in InWindow(scenes, date, window) <==> s in scenes && Distance(s.date, date) <= window
    decreases |scenes|
  {
    if |scenes| > 0 {
      WindowMembers(scenes[..|scenes| - 1], date, window, s);
    }
  }

  lemma ListedAreScenes(scenes: seq<Scene>, date: int, window: nat, limit: nat, s: Scene)
    requires s in ListCandidates(scenes, date, window, limit)
    ensures s in scenes && Distance(s.date, date) <= window
  {
    var inside := InWindow(scenes, date, window);
    SameMembers(Sort(ByDistanceAndTime(date), inside), inside);
    WindowMembers(scenes, date, window, s);
  }

  // ---- Explanations ----

  datatype Status = Available | CloudThresholdExceeded | InsufficientFieldCoverage | ProcessingPending
                  | ProcessingFailed | NoFieldIntersection

  datatype Metrics = Metrics(usable: real, cloud: real, coverage: real, shadow: real, obscured: real, validPixels: nat)

  /** The sentences of the response; none of them is blank. */
  datatype Reason = ScenePending | MaskPending | ReadFailed | NoRasterIntersection | NoSceneIntersection
                  | LowCoverage | OverCloudLimit | NoValidPixels

  datatype Rejection = Rejection(status: Status, selected: Option<int>, metrics: Option<Metrics>, reason: Reason)

  function MetricsOf(e: Evidence): Metrics
    requires e.Measured?
  {
    Metrics(UsablePercentage(e), e.mask.cloudPercent, e.mask.coveragePercent, e.mask.shadowPercent,
            e.mask.obscuredPercent, ValidPixels(e))
  }

  /** The branches of `_field_date_rejection` for one scene: they are tested in another order than
      the admission tests, with one more, and without the ResourceSat provenance test. */
  function RejectionOf(s: Scene, settings: Settings, q: Query): Option<Rejection> {
    match s.evidence
    case NoRaster => Some(Rejection(ProcessingPending, Some(s.date), None, ScenePending))
    case NoMask => Some(Rejection(ProcessingPending, Some(s.date), None, MaskPending))
    case Unreadable =>
      Some(Rejection(ProcessingFailed, Some(s.date), None, ReadFailed))
    case Measured(_, mask) =>
      var metrics := Some(MetricsOf(s.evidence));
      if mask.fieldPixels == 0 then
        Some(Rejection(NoFieldIntersection, Some(s.date), metrics, NoRasterIntersection))
      else if mask.coveragePercent < settings.minCoverage then
        Some(Rejection(InsufficientFieldCoverage, Some(s.date), metrics, LowCoverage))
      else if mask.obscuredPercent > q.maxCloud then
        Some(Rejection(CloudThresholdExceeded, Some(s.date), metrics, OverCloudLimit))
      else if ValidPixels(s.evidence) < settings.minUsablePixels then
        Some(Rejection(ProcessingFailed, Some(s.date), metrics, NoValidPixels))
      else None
  }

  /** The two codings agree: a scene is admitted exactly when nothing rejects it, and, for
      ResourceSat, it is an exact-date composite. */
  lemma AdmittedIffNotRejected(s: Scene, settings: Settings, q: Query)
    requires settings.minUsablePixels > 0 && Plausible(s.evidence)
    ensures Admitted(s, settings, q)
            <==> RejectionOf(s, settings, q).None? && (q.source == ResourceSat ==> s.exactDateComposite)
  {
  }

  function Rejections(scenes: seq<Scene>, settings: Settings, q: Query): seq<Rejection> {
    if |scenes| == 0 then [] else
      Rejections(scenes[..|scenes| - 1], settings, q)
      + match RejectionOf(scenes[|scenes| - 1], settings, q) case Some(r) => [r] case None => []
  }

  function Priority(status: Status): int {
    match status
    case CloudThresholdExceeded => 0
    case ProcessingFailed => 1
    case ProcessingPending => 2
    case InsufficientFieldCoverage => 3
    case NoFieldIntersection => 4
    case Available => 99
  }

  function RejectionKey(): Rejection -> Key {
    (r: Rejection) =>
      Key(Priority(r.status),
          match r.metrics case Some(m) => [-m.coverage, -(m.validPixels as real)] case None => [0.0, 0.0], "")
  }

  /** `_field_date_rejection`. */
  function Explanation(scenes: seq<Scene>, settings: Settings, q: Query, failures: nat): Rejection {
    if failures > 0 then
      Rejection(ProcessingFailed, None, None, ReadFailed)
    else
      var candidates := ListCandidates(scenes, q.date, 0, settings.maxScenes);
      if |candidates| == 0 then
        Rejection(NoFieldIntersection, None, None, NoSceneIntersection)
      else
        var rejections := Rejections(candidates, settings, q);
        if |rejections| > 0 then FirstMin(RejectionKey(), rejections)
        else Rejection(ProcessingPending, None, None, ScenePending)
  }

  method Explain(scenes: seq<Scene>, settings: Settings, q: Query, failures: nat) returns (r: Rejection)
    ensures r == Explanation(scenes, settings, q, failures)
  {
    hide RejectionOf, FirstMin;
    if failures > 0 {
      return Rejection(ProcessingFailed, None, None, ReadFailed);
    }
    var candidates := ListCandidates(scenes, q.date, 0, settings.maxScenes);
    if |candidates| == 0 {
      return Rejection(NoFieldIntersection, None, None, NoSceneIntersection);
    }
    var rejections := [];
    for i := 0 to |candidates|
      invariant rejections == Rejections(candidates[..i], settings, q)
    {
      assert candidates[..i + 1][..i] == candidates[..i];
      match RejectionOf(candidates[i], settings, q) {
        case Some(rejection) => rejections := rejections + [rejection];
        case None =>
      }
    }
    assert candidates[..|candidates|] == candidates;
    r := if |rejections| > 0 then FirstMin(RejectionKey(), rejections)
         else Rejection(ProcessingPending, None, None, ScenePending);
  }

  lemma {:induction false} RejectionsAre(scenes: seq<Scene>, settings: Settings, q: Query, r: Rejection)
    ensures r in Rejections(scenes, settings, q) <==> exists s :: s in scenes && RejectionOf(s, settings, q) == Some(r)
    decreases |scenes|
  {
    hide RejectionOf;
    if |scenes| > 0 {
      var front, last := scenes[..|scenes| - 1], scenes[|scenes| - 1];
      RejectionsAre(front, settings, q, r);
      if s :| s in front && RejectionOf(s, settings, q) == Some(r) {
        assert s in scenes;
      }
      if RejectionOf(last, settings, q) == Some(r) {
        assert last in scenes;
      }
    }
  }

  // ---- Field dates ----

  datatype Availability = Availability(date: int, available: bool, status: Status, selected: Option<int>,
                                       usable: Option<real>, cloud: Option<real>, coverage: Option<real>,
                                       shadow: Option<real>, obscured: Option<real>, validPixels: int,
                                       reason: Option<Reason>)

  predicate PercentageOrNone(x: Option<real>) { x.Some? ==> Percentage(x.value) }

  /** The field constraints of `FieldDateAvailability` and its `validate_availability`. */
  predicate Accepted(a: Availability) {
    && PercentageOrNone(a.usable) && PercentageOrNone(a.cloud) && PercentageOrNone(a.coverage)
    && PercentageOrNone(a.shadow) && PercentageOrNone(a.obscured) && a.validPixels >= 0
    && if a.available then
         && a.selected == Some(a.date) && a.usable.Some? && a.validPixels > 0
         && a.cloud.Some? && a.coverage.Some? && a.shadow.Some? && a.obscured.Some?
         && a.reason == None
       else
         a.reason.Some? && a.status != Available
  }

  /** What the validator accepts. */
  lemma AcceptedMeans(a: Availability)
    ensures var shares := {a.usable, a.cloud, a.coverage, a.shadow, a.obscured};
            Accepted(a)
            <==> && a.validPixels >= 0 && (forall x | x in shares && x.Some? :: 0.0 <= x.value <= 100.0)
                 && if a.available
                    then a.selected == Some(a.date) && None !in shares && a.validPixels > 0 && a.reason == None
                    else a.reason != None && a.status != Available
  {
  }

  function Found(date: int, s: Scene): Availability
    requires s.evidence.Measured?
  {
    var m := MetricsOf(s.evidence);
    Availability(date, true, Available, Some(s.date), Some(m.usable), Some(m.cloud), Some(m.coverage),
                 Some(m.shadow), Some(m.obscured), m.validPixels, None)
  }

  function Missing(date: int, r: Rejection): Availability {
    match r.metrics
    case Some(m) =>
      Availability(date, false, r.status, r.selected, Some(m.usable), Some(m.cloud), Some(m.coverage),
                   Some(m.shadow), Some(m.obscured), m.validPixels, Some(r.reason))
    case None => Availability(date, false, r.status, r.selected, None, None, None, None, None, 0, Some(r.reason))
  }

  /** One date of `field_dates`. */
  function DateAvailability(scenes: seq<Scene>, settings: Settings, q: Query): Availability {
    var candidates := Candidates(scenes, settings, q, 0);
    match Choice(candidates, settings, q)
    case Some(s) => ChoiceIsBest(candidates, settings, q, s); Found(q.date, s)
    case None => Missing(q.date, Explanation(scenes, settings, q, Failures(candidates, q)))
  }

  method FieldDate(scenes: seq<Scene>, settings: Settings, q: Query) returns (a: Availability)
    ensures a == DateAvailability(scenes, settings, q)
  {
    hide Candidates, Explanation;
    var options, failures := CandidateOptions(scenes, settings, q, 0);
    if |options| > 0 {
      var s := FirstMin(QualityKey(q.date), options);
      ChoiceIsBest(Candidates(scenes, settings, q, 0), settings, q, s);
      a := Found(q.date, s);
    } else {
      var r := Explain(scenes, settings, q, failures);
      a := Missing(q.date, r);
    }
  }

  function Descending(): (int, int) -> bool { (a: int, b: int) => b <= a }

  /** `field_dates`: every requested date, latest first, each accepted by the validator. */
  method FieldDates(scenes: seq<Scene>, settings: Settings, source: Source, maxCloud: real, dates: seq<int>)
    returns (results: seq<Availability>)
    requires settings.minUsablePixels > 0 && AllPlausible(scenes)
    ensures |results| == |dates|
    ensures forall i, j | 0 <= i < j < |results| :: results[i].date >= results[j].date
    ensures multiset(seq(|results|, i requires 0 <= i < |results| => results[i].date)) == multiset(dates)
    ensures forall i | 0 <= i < |results| ::
              && results[i].date == Sort(Descending(), dates)[i] && Accepted(results[i])
              && results[i] == DateAvailability(scenes, settings, Query(source, results[i].date, maxCloud))
  {
    hide DateAvailability, Accepted;
    var sorted := Sort(Descending(), dates);
    LatestFirst(dates);
    results := [];
    for i := 0 to |sorted|
      invariant |results| == i
      invariant forall k | 0 <= k < i ::
                  && results[k].date == sorted[k] && Accepted(results[k])
                  && results[k] == DateAvailability(scenes, settings, Query(source, sorted[k], maxCloud))
    {
      var q := Query(source, sorted[i], maxCloud);
      EveryDateAccepted(scenes, settings, q);
      DateIsKept(scenes, settings, q);
      var a := FieldDate(scenes, settings, q);
      results := results + [a];
    }
    assert seq(|results|, i requires 0 <= i < |results| => results[i].date) == sorted;
  }

  lemma LatestFirst(dates: seq<int>)
    ensures forall i, j | 0 <= i < j < |dates| :: Sort(Descending(), dates)[i] >= Sort(Descending(), dates)[j]
  {
    SortSorts(Descending(), dates);
    var sorted := Sort(Descending(), dates);
    forall i, j | 0 <= i < j < |sorted| ensures sorted[i] >= sorted[j] {
      assert Descending()(sorted[i], sorted[j]);
    }
  }

  lemma DateIsKept(scenes: seq<Scene>, settings: Settings, q: Query)
    ensures DateAvailability(scenes, settings, q).date == q.date
  {
  }

  lemma CandidateMeans(scenes: seq<Scene>, settings: Settings, q: Query, window: nat, s: Scene)
    ensures s in Candidates(scenes, settings, q, window)
            <==> s in ListCandidates(scenes, q.date, window, settings.maxScenes)
    ensures s in Candidates(scenes, settings, q, window) ==> s in scenes && Distance(s.date, q.date) <= window
  {
    hide KeyLeq;
    var listed := ListCandidates(scenes, q.date, window, settings.maxScenes);
    SameMembers(Candidates(scenes, settings, q, window), listed);
    if s in listed {
      ListedAreScenes(scenes, q.date, window, settings.maxScenes, s);
    }
  }

  ghost predicate AllPlausible(scenes: seq<Scene>) { forall s | s in scenes :: Plausible(s.evidence) }

  lemma RejectionAccepted(s: Scene, settings: Settings, q: Query, date: int)
    requires Plausible(s.evidence) && RejectionOf(s, settings, q).Some?
    ensures Accepted(Missing(date, RejectionOf(s, settings, q).value))
  {
  }

  lemma ExplanationAccepted(scenes: seq<Scene>, settings: Settings, q: Query, failures: nat)
    requires AllPlausible(scenes)
    ensures Accepted(Missing(q.date, Explanation(scenes, settings, q, failures)))
  {
    hide RejectionOf, FirstMin, ListCandidates, Plausible;
    var candidates := ListCandidates(scenes, q.date, 0, settings.maxScenes);
    var rejections := Rejections(candidates, settings, q);
    if failures == 0 && |candidates| > 0 && |rejections| > 0 {
      var r := FirstMin(RejectionKey(), rejections);
      RejectionsAre(candidates, settings, q, r);
      var s :| s in candidates && RejectionOf(s, settings, q) == Some(r);
      ListedAreScenes(scenes, q.date, 0, settings.maxScenes, s);
      RejectionAccepted(s, settings, q, q.date);
    }
  }

  /** Every date that `field_dates` reports satisfies the response validator. */
  lemma EveryDateAccepted(scenes: seq<Scene>, settings: Settings, q: Query)
    requires settings.minUsablePixels > 0 && AllPlausible(scenes)
    ensures Accepted(DateAvailability(scenes, settings, q))
    ensures var a := DateAvailability(scenes, settings, q);
            var shares := {a.usable, a.cloud, a.coverage, a.shadow, a.obscured};
            && (if a.available
                then a.validPixels > 0 && a.selected == Some(a.date) && a.reason == None && None !in shares
                else a.reason.Some? && a.status != Available)
            && forall x | x in shares && x.Some? :: 0.0 <= x.value <= 100.0
  {
    hide Candidates, Choice, Explanation;
    var candidates := Candidates(scenes, settings, q, 0);
    match Choice(candidates, settings, q) {
      case Some(s) =>
        ChoiceIsBest(candidates, settings, q, s);
        CandidateMeans(scenes, settings, q, 0, s);
      case None =>
        ExplanationAccepted(scenes, settings, q, Failures(candidates, q));
    }
  }

  /** The date is unavailable, and no read failed. */
  predicate Unexplained(scenes: seq<Scene>, settings: Settings, q: Query) {
    var candidates := Candidates(scenes, settings, q, 0);
    Choice(candidates, settings, q).None? && Failures(candidates, q) == 0
  }

  /** For an unavailable date with candidates and no read failure, outside ResourceSat, the
      explanation is some candidate's own rejection, and none of better priority is passed over:
      an edge tile never hides that the field was found under cloud. */
  lemma ExplanationIsTheBest(scenes: seq<Scene>, settings: Settings, q: Query, s: Scene)
    requires settings.minUsablePixels > 0 && AllPlausible(scenes) && q.source != ResourceSat
    requires s in ListCandidates(scenes, q.date, 0, settings.maxScenes)
    requires Unexplained(scenes, settings, q)
    ensures var e := Explanation(scenes, settings, q, 0);
            && e.selected == Some(q.date)
            && (exists t :: t in ListCandidates(scenes, q.date, 0, settings.maxScenes)
                            && RejectionOf(t, settings, q) == Some(e))
            && RejectionOf(s, settings, q).Some?
            && KeyLeq(RejectionKey()(e), RejectionKey()(RejectionOf(s, settings, q).value))
            && (RejectionOf(s, settings, q).value.status == CloudThresholdExceeded ==>
                  e.status == CloudThresholdExceeded)
  {
    hide RejectionOf, FirstMin, ListCandidates, Plausible, KeyLeq, Candidates, Options;
    var listed := ListCandidates(scenes, q.date, 0, settings.maxScenes);
    var rejections := Rejections(listed, settings, q);
    CandidateMeans(scenes, settings, q, 0, s);
    ChoiceIsBest(Candidates(scenes, settings, q, 0), settings, q, s);
    AdmittedIffNotRejected(s, settings, q);
    var own := RejectionOf(s, settings, q).value;
    RejectionsAre(listed, settings, q, own);
    MinIsLeast(RejectionKey(), rejections, own);
    var e := FirstMin(RejectionKey(), rejections);
    RejectionsAre(listed, settings, q, e);
    var t :| t in listed && RejectionOf(t, settings, q) == Some(e);
    ListedAreScenes(scenes, q.date, 0, settings.maxScenes, t);
    RejectionNamesScene(t, settings, q);
    BestPriority(e, own);
  }

  lemma RejectionNamesScene(s: Scene, settings: Settings, q: Query)
    requires RejectionOf(s, settings, q).Some?
    ensures RejectionOf(s, settings, q).value.selected == Some(s.date)
    ensures RejectionOf(s, settings, q).value.status != Available
  {
  }

  lemma BestPriority(a: Rejection, b: Rejection)
    requires KeyLeq(RejectionKey()(a), RejectionKey()(b))
    ensures b.status == CloudThresholdExceeded ==> a.status == CloudThresholdExceeded
  {
  }
}
