/** Which earlier EOS-04 observations a field observation may be compared with, and the temporal
    analysis built on them. */
module SarTemporal {
  import opened Wrappers
  import opened StableSorting
  import opened Rounding
  import opened RobustDeviation

  /** The normalized comparison metadata of one scene; absent fields are None. */
  datatype Metadata = Metadata(
    platform: Option<string>, sensor: Option<string>, instrumentMode: Option<string>,
    productType: Option<string>, processingLevel: Option<string>, processingProfile: string,
    software: Option<string>, calibration: string, outputScale: string,
    rtcApplied: Option<bool>, demCorrection: Option<bool>, demSource: Option<string>,
    polarizations: seq<string>, orientation: Option<string>, orbitState: Option<string>,
    trackKey: Option<string>, incidence: Option<real>, spacing: real,
    acquisitionStart: Option<string>, acquisitionEnd: Option<string>)

  const INCIDENCE_TOLERANCE: real := 1.0
  const RESOLUTION_TOLERANCE: real := 0.5

  predicate Complete(m: Metadata) {
    && m.platform.Some? && m.sensor.Some? && m.instrumentMode.Some? && m.productType.Some?
    && m.software.Some? && m.rtcApplied.Some? && m.demCorrection.Some? && m.demSource.Some?
    && m.polarizations != [] && m.orientation.Some? && m.orbitState.Some? && m.trackKey.Some?
    && m.incidence.Some? && m.acquisitionStart.Some? && m.acquisitionEnd.Some?
  }

  /** Which fields an observation may lack: the processing level and the fields that are always set. */
  lemma CompleteMeans(m: Metadata)
    ensures !Complete(m)
            <==> || None in {m.platform, m.sensor, m.instrumentMode, m.productType, m.software}
                 || None in {m.demSource, m.orientation, m.orbitState, m.trackKey, m.acquisitionStart, m.acquisitionEnd}
                 || None in {m.rtcApplied, m.demCorrection} || m.incidence == None || |m.polarizations| == 0
  {
  }

  datatype Reason =
    | MetadataIncomplete | ProcessingProfileMismatch | SoftwareMismatch | RtcOrDemMismatch
    | PolarizationMismatch | LookDirectionMismatch | OrbitStateMismatch | TrackMismatch
    | IncidenceMismatch | ResolutionMismatch

  predicate SameProfile(a: Metadata, b: Metadata) {
    && a.platform == b.platform && a.sensor == b.sensor && a.instrumentMode == b.instrumentMode
    && a.productType == b.productType && a.processingLevel == b.processingLevel
    && a.processingProfile == b.processingProfile && a.calibration == b.calibration
    && a.outputScale == b.outputScale
  }

  predicate SameTerrain(a: Metadata, b: Metadata) {
    a.rtcApplied == b.rtcApplied && a.demCorrection == b.demCorrection && a.demSource == b.demSource
  }

  /** What each code says about two complete observations. */
  predicate Applies(r: Reason, a: Metadata, b: Metadata)
    requires Complete(a) && Complete(b)
  {
    match r
    case MetadataIncomplete => false
    case ProcessingProfileMismatch => !SameProfile(a, b)
    case SoftwareMismatch => a.software != b.software
    case RtcOrDemMismatch => !SameTerrain(a, b)
    case PolarizationMismatch => a.polarizations != b.polarizations
    case LookDirectionMismatch => a.orientation != b.orientation
    case OrbitStateMismatch => a.orbitState != b.orbitState
    case TrackMismatch => a.trackKey != b.trackKey
    case IncidenceMismatch => Abs(a.incidence.value - b.incidence.value) > INCIDENCE_TOLERANCE
    case ResolutionMismatch => Abs(a.spacing - b.spacing) > RESOLUTION_TOLERANCE
  }

  /** The codes in the order of the tests. */
  function CodeAt(n: nat): Reason
    requires n < 9
  {
    match n
    case 0 => ProcessingProfileMismatch
    case 1 => SoftwareMismatch
    case 2 => RtcOrDemMismatch
    case 3 => PolarizationMismatch
    case 4 => LookDirectionMismatch
    case 5 => OrbitStateMismatch
    case 6 => TrackMismatch
    case 7 => IncidenceMismatch
    case 8 => ResolutionMismatch
  }

  function Position(r: Reason): (n: nat)
    requires r != MetadataIncomplete
    ensures n < 9 && CodeAt(n) == r
  {
    match r
    case ProcessingProfileMismatch => 0
    case SoftwareMismatch => 1
    case RtcOrDemMismatch => 2
    case PolarizationMismatch => 3
    case LookDirectionMismatch => 4
    case OrbitStateMismatch => 5
    case TrackMismatch => 6
    case IncidenceMismatch => 7
    case ResolutionMismatch => 8
  }

  /** The codes that apply, among the first `n`. */
  function Applicable(n: nat, a: Metadata, b: Metadata): seq<Reason>
    requires Complete(a) && Complete(b) && n <= 9
  {
    if n == 0 then [] else
      Applicable(n - 1, a, b) + if Applies(CodeAt(n - 1), a, b) then [CodeAt(n - 1)] else []
  }

  function ReasonCodes(a: Metadata, b: Metadata): seq<Reason> {
    if !Complete(a) || !Complete(b) then [MetadataIncomplete] else Applicable(9, a, b)
  }

  /** One test: `if mismatch: reasons.append(..)` for code `n`. */
  method Test(reasons: seq<Reason>, mismatch: bool, n: nat, ghost a: Metadata, ghost b: Metadata)
    returns (after: seq<Reason>)
    requires Complete(a) && Complete(b) && n < 9
    requires reasons == Applicable(n, a, b) && mismatch == Applies(CodeAt(n), a, b)
    ensures after == Applicable(n + 1, a, b)
  {
    after := if mismatch then reasons + [CodeAt(n)] else reasons;
  }

  method ProcessingTests(a: Metadata, b: Metadata) returns (reasons: seq<Reason>)
    requires Complete(a) && Complete(b)
    ensures reasons == Applicable(4, a, b)
  {
    hide Complete, SameProfile, SameTerrain;
    reasons := Test([], !SameProfile(a, b), 0, a, b);
    reasons := Test(reasons, a.software != b.software, 1, a, b);
    reasons := Test(reasons, !SameTerrain(a, b), 2, a, b);
    reasons := Test(reasons, a.polarizations != b.polarizations, 3, a, b);
  }

  method GeometryTests(soFar: seq<Reason>, a: Metadata, b: Metadata) returns (reasons: seq<Reason>)
    requires Complete(a) && Complete(b) && soFar == Applicable(4, a, b)
    ensures reasons == Applicable(9, a, b)
  {
    hide Applicable, Abs;
    reasons := Test(soFar, a.orientation != b.orientation, 4, a, b);
    reasons := Test(reasons, a.orbitState != b.orbitState, 5, a, b);
    reasons := Test(reasons, a.trackKey != b.trackKey, 6, a, b);
    reasons := Test(reasons, Abs(a.incidence.value - b.incidence.value) > INCIDENCE_TOLERANCE, 7, a, b);
    reasons := Test(reasons, Abs(a.spacing - b.spacing) > RESOLUTION_TOLERANCE, 8, a, b);
  }

  /** `comparison_reason_codes`: the tests one after the other. */
  method ComparisonReasonCodes(a: Metadata, b: Metadata) returns (reasons: seq<Reason>)
    ensures reasons == ReasonCodes(a, b)
  {
    hide Applicable;
    if !Complete(a) || !Complete(b) {
      return [MetadataIncomplete];
    }
    reasons := ProcessingTests(a, b);
    reasons := GeometryTests(reasons, a, b);
  }

  predicate Comparable(a: Metadata, b: Metadata) { ReasonCodes(a, b) == [] }

  /** The canonical content that the comparison key hashes; the hash is taken to be injective. */
  function KeyContent(m: Metadata): Metadata {
    m.(acquisitionStart := None, acquisitionEnd := None)
  }

  lemma {:induction false} ApplicableHas(n: nat, a: Metadata, b: Metadata, r: Reason)
    requires Complete(a) && Complete(b) && n <= 9
    ensures r in Applicable(n, a, b) <==> Applies(r, a, b) && exists k: nat :: k < n && CodeAt(k) == r
  {
    hide Complete, Applies, CodeAt;
    if n > 0 {
      ApplicableHas(n - 1, a, b, r);
      assert CodeAt(n - 1) == r ==> exists k: nat :: k < n && CodeAt(k) == r;
    }
  }

  /** A code is given exactly when its cause is there, and no code exactly when nothing applies; an
      incomplete observation is given that code and no other. */
  lemma ReasonsMean(a: Metadata, b: Metadata)
    ensures Complete(a) && Complete(b) ==> forall r :: r in ReasonCodes(a, b) <==> Applies(r, a, b)
    ensures Complete(a) && Complete(b) ==> (Comparable(a, b) <==> forall r :: !Applies(r, a, b))
    ensures !(Complete(a) && Complete(b)) ==> ReasonCodes(a, b) == [MetadataIncomplete]
  {
    hide Complete, Applicable, SameProfile, SameTerrain, Abs;
    if Complete(a) && Complete(b) {
      forall r ensures r in ReasonCodes(a, b) <==> Applies(r, a, b) {
        ApplicableHas(9, a, b, r);
        if Applies(r, a, b) {
          assert CodeAt(Position(r)) == r;
        }
      }
      if ReasonCodes(a, b) != [] {
        assert ReasonCodes(a, b)[0] in ReasonCodes(a, b);
      }
    }
  }

  lemma {:induction false} ApplicableSymmetric(n: nat, a: Metadata, b: Metadata)
    requires Complete(a) && Complete(b) && n <= 9
    ensures Applicable(n, a, b) == Applicable(n, b, a)
  {
    hide Complete, Applies, CodeAt;
    if n > 0 {
      ApplicableSymmetric(n - 1, a, b);
      AppliesSymmetric(CodeAt(n - 1), a, b);
    }
  }

  lemma AppliesSymmetric(r: Reason, a: Metadata, b: Metadata)
    requires Complete(a) && Complete(b)
    ensures Applies(r, a, b) <==> Applies(r, b, a)
  {
  }

  lemma ReasonsAreSymmetric(a: Metadata, b: Metadata)
    ensures ReasonCodes(a, b) == ReasonCodes(b, a)
  {
    hide Complete, Applicable;
    if Complete(a) && Complete(b) {
      ApplicableSymmetric(9, a, b);
    }
  }

  /** Equal comparison keys make two complete observations comparable. */
  lemma SameKeyIsComparable(a: Metadata, b: Metadata)
    requires Complete(a) && Complete(b) && KeyContent(a) == KeyContent(b)
    ensures Comparable(a, b)
  {
    hide ReasonCodes;
    ReasonsMean(a, b);
    assert a.incidence == b.incidence && a.spacing == b.spacing && SameProfile(a, b) && SameTerrain(a, b);
  }

  predicate WithinTolerances(a: Metadata, b: Metadata)
    requires Complete(a) && Complete(b)
  {
    && Abs(a.incidence.value - b.incidence.value) <= INCIDENCE_TOLERANCE
    && Abs(a.spacing - b.spacing) <= RESOLUTION_TOLERANCE
  }

  lemma TolerancesMean(a: Metadata, b: Metadata)
    requires Complete(a) && Complete(b)
    ensures WithinTolerances(a, b)
            <==> && a.incidence.value - 1.0 <= b.incidence.value <= a.incidence.value + 1.0
                 && a.spacing - 0.5 <= b.spacing <= a.spacing + 0.5
  {
  }

  /** Everything that is compared for equality. */
  predicate SameSetup(a: Metadata, b: Metadata) {
    && SameProfile(a, b) && a.software == b.software && SameTerrain(a, b) && a.polarizations == b.polarizations
    && a.orientation == b.orientation && a.orbitState == b.orbitState && a.trackKey == b.trackKey
  }

  lemma ComparableMeans(a: Metadata, b: Metadata)
    requires Complete(a) && Complete(b)
    ensures Comparable(a, b) <==> SameSetup(a, b) && WithinTolerances(a, b)
  {
    hide ReasonCodes, Complete, SameProfile, SameTerrain, Abs;
    ReasonsMean(a, b);
    if !(SameSetup(a, b) && WithinTolerances(a, b)) {
      assert || Applies(ProcessingProfileMismatch, a, b) || Applies(SoftwareMismatch, a, b)
             || Applies(RtcOrDemMismatch, a, b) || Applies(PolarizationMismatch, a, b)
             || Applies(LookDirectionMismatch, a, b) || Applies(OrbitStateMismatch, a, b)
             || Applies(TrackMismatch, a, b) || Applies(IncidenceMismatch, a, b) || Applies(ResolutionMismatch, a, b);
    }
  }

  /** Two comparable observations have equal keys exactly when incidence and spacing are equal. */
  lemma ComparableHasSameKeyExactlyWhen(a: Metadata, b: Metadata)
    requires Comparable(a, b)
    ensures KeyContent(a) == KeyContent(b) <==> a.incidence == b.incidence && a.spacing == b.spacing
  {
    hide ReasonCodes;
    ReasonsMean(a, b);
    ComparableMeans(a, b);
  }

  /** Comparability chains exactly when the tolerances, which may add up, are kept end to end. */
  lemma ComparableChainsExactlyWhen(a: Metadata, b: Metadata, c: Metadata)
    requires Comparable(a, b) && Comparable(b, c)
    ensures Complete(a) && Complete(c)
    ensures Comparable(a, c) <==> WithinTolerances(a, c)
  {
    hide ReasonCodes, WithinTolerances;
    ReasonsMean(a, b);
    ReasonsMean(b, c);
    ComparableMeans(a, b);
    ComparableMeans(b, c);
    ComparableMeans(a, c);
  }

  /** Both do fail: three passes 0.9 degrees apart. */
  lemma ComparableIsNotTransitive(a: Metadata)
    requires Complete(a)
    ensures var b := a.(incidence := Some(a.incidence.value + 0.9));
            var c := a.(incidence := Some(a.incidence.value + 1.8));
            Comparable(a, b) && Comparable(b, c) && !Comparable(a, c) && KeyContent(a) != KeyContent(b)
  {
    hide ReasonCodes;
    var b := a.(incidence := Some(a.incidence.value + 0.9));
    var c := a.(incidence := Some(a.incidence.value + 1.8));
    ReasonsMean(a, b);
    ReasonsMean(b, c);
    ReasonsMean(a, c);
    assert Applies(IncidenceMismatch, a, c);
  }

  datatype Stats = Stats(medians: map<string, Option<real>>, features: map<string, real>)

  datatype Observation = Observation(date: string, metadata: Metadata, stats: Stats)

  /** A list comprehension over the observations: what `pick` takes from each, in order. */
  function Collect<T>(pick: Observation -> seq<T>, observations: seq<Observation>): seq<T> {
    if |observations| == 0 then [] else
      Collect(pick, observations[..|observations| - 1]) + pick(observations[|observations| - 1])
  }

  function IfComparable(current: Metadata): Observation -> seq<Observation> {
    (o: Observation) => if Comparable(current, o.metadata) then [o] else []
  }

  function Comparables(current: Metadata, prior: seq<Observation>): seq<Observation> {
    Collect(IfComparable(current), prior)
  }

  /** The loop that sorts the prior observations into comparable ones and exclusions. */
  method Partition(current: Metadata, prior: seq<Observation>)
    returns (comparable: seq<Observation>, exclusions: seq<(string, seq<Reason>)>)
    ensures comparable == Comparables(current, prior)
    ensures |comparable| + |exclusions| == |prior|
    ensures forall e | e in exclusions :: e.1 != []
  {
    hide ReasonCodes;
    comparable, exclusions := [], [];
    for i := 0 to |prior|
      invariant comparable == Comparables(current, prior[..i])
      invariant |comparable| + |exclusions| == i
      invariant forall e | e in exclusions :: e.1 != []
    {
      assert prior[..i + 1][..i] == prior[..i];
      var reasons := ComparisonReasonCodes(current, prior[i].metadata);
      if reasons != [] {
        exclusions := exclusions + [(prior[i].date, reasons)];
      } else {
        comparable := comparable + [prior[i]];
      }
    }
    assert prior[..|prior|] == prior;
  }

  function MedianOf(stats: Stats, band: string): seq<real> {
    if band in stats.medians && stats.medians[band].Some? then [stats.medians[band].value] else []
  }

  function FeatureOf(stats: Stats, name: string): seq<real> {
    if name in stats.features then [stats.features[name]] else []
  }

  /** The present medians of one band, in the order of the observations. */
  function BandHistory(observations: seq<Observation>, band: string): seq<real> {
    Collect((o: Observation) => MedianOf(o.stats, band), observations)
  }

  function FeatureHistory(observations: seq<Observation>, name: string): seq<real> {
    Collect((o: Observation) => FeatureOf(o.stats, name), observations)
  }

  datatype BaselineStatus = InsufficientObservations | DegenerateBaseline | BaselineAvailable

  datatype Baseline = Baseline(status: BaselineStatus, bands: map<string, Deviation>, features: map<string, Deviation>)

  predicate HasScore(ds: map<string, Deviation>) {
    exists name | name in ds :: ds[name].score.Some?
  }

  /** The deviation of one series, when there is a current value and enough history. */
  function Scored(current: seq<real>, history: seq<real>, minimum: nat): Option<Deviation>
    requires minimum >= 1
  {
    if |current| == 0 || |history| < minimum then None else Some(RobustDeviationOf(current[0], history))
  }

  function BandScore(current: Stats, observations: seq<Observation>, minimum: nat, band: string): Option<Deviation>
    requires minimum >= 1
  {
    Scored(MedianOf(current, band), BandHistory(observations, band), minimum)
  }

  function FeatureScore(current: Stats, observations: seq<Observation>, minimum: nat, name: string): Option<Deviation>
    requires minimum >= 1
  {
    Scored(FeatureOf(current, name), FeatureHistory(observations, name), minimum)
  }

  function BandScores(current: Stats, observations: seq<Observation>, minimum: nat,
                      names: set<string>): map<string, Deviation>
    requires minimum >= 1
  {
    map band | band in names && BandScore(current, observations, minimum, band).Some?
      :: BandScore(current, observations, minimum, band).value
  }

  function FeatureScores(current: Stats, observations: seq<Observation>, minimum: nat,
                         names: set<string>): map<string, Deviation>
    requires minimum >= 1
  {
    map name | name in names && FeatureScore(current, observations, minimum, name).Some?
      :: FeatureScore(current, observations, minimum, name).value
  }

  function BaselineOf(current: Stats, observations: seq<Observation>, minimum: nat): Baseline
    requires minimum >= 1
  {
    if |observations| < minimum then Baseline(InsufficientObservations, map[], map[]) else
      var bands := BandScores(current, observations, minimum, current.medians.Keys);
      var features := FeatureScores(current, observations, minimum, current.features.Keys);
      Baseline(if HasScore(bands) || HasScore(features) then BaselineAvailable else DegenerateBaseline, bands, features)
  }

  lemma NoScore()
    ensures !HasScore(map[])
  {
  }

  lemma ScoreAdded(ds: map<string, Deviation>, name: string, d: Deviation)
    requires name !in ds
    ensures HasScore(ds[name := d]) <==> HasScore(ds) || d.score.Some?
  {
    var after := ds[name := d];
    if d.score.Some? {
      assert name in after && after[name].score.Some?;
    }
    if HasScore(ds) {
      var n :| n in ds && ds[n].score.Some?;
      assert n in after && after[n].score.Some?;
    }
  }

  /** `_baseline`; a request asks for at least three observations, so for at least one. The names
      are visited in some order; the source's is alphabetical. */
  method ComputeBaseline(current: Stats, observations: seq<Observation>, minimum: nat) returns (b: Baseline)
    requires minimum >= 1
    ensures b == BaselineOf(current, observations, minimum)
  {
    hide BandScore, FeatureScore, HasScore;
    if |observations| < minimum {
      return Baseline(InsufficientObservations, map[], map[]);
    }
    var bands: map<string, Deviation> := map[];
    var features: map<string, Deviation> := map[];
    var hasScore := false;
    NoScore();
    var todo := current.medians.Keys;
    while todo != {}
      invariant todo <= current.medians.Keys
      invariant bands == BandScores(current, observations, minimum, current.medians.Keys - todo)
      invariant hasScore <==> HasScore(bands)
    {
      var band :| band in todo;
      todo := todo - {band};
      var result := BandScore(current, observations, minimum, band);
      if result.Some? {
        ScoreAdded(bands, band, result.value);
        hasScore := hasScore || result.value.score.Some?;
        bands := bands[band := result.value];
      }
    }
    assert current.medians.Keys - todo == current.medians.Keys;
    todo := current.features.Keys;
    while todo != {}
      invariant todo <= current.features.Keys
      invariant features == FeatureScores(current, observations, minimum, current.features.Keys - todo)
      invariant hasScore <==> HasScore(bands) || HasScore(features)
    {
      var name :| name in todo;
      todo := todo - {name};
      var result := FeatureScore(current, observations, minimum, name);
      if result.Some? {
        ScoreAdded(features, name, result.value);
        hasScore := hasScore || result.value.score.Some?;
        features := features[name := result.value];
      }
    }
    assert current.features.Keys - todo == current.features.Keys;
    b := Baseline(if hasScore then BaselineAvailable else DegenerateBaseline, bands, features);
  }

  datatype ComparisonStatus =
    | Incomplete | NoComparableHistory | InsufficientBaseline | Degenerate | Available

  datatype Analysis = Analysis(status: ComparisonStatus, comparable: seq<Observation>, baseline: Baseline)

  /** `build_sar_temporal_analysis` without the change section. */
  function Analyse(current: Metadata, stats: Stats, prior: seq<Observation>, minimum: nat): Analysis
    requires minimum >= 1
  {
    var comparable := Comparables(current, prior);
    var baseline := BaselineOf(stats, comparable, minimum);
    var status :=
      if !Complete(current) then Incomplete
      else if |comparable| == 0 then NoComparableHistory
      else if baseline.status == InsufficientObservations then InsufficientBaseline
      else if baseline.status == DegenerateBaseline then Degenerate
      else Available;
    Analysis(status, comparable, baseline)
  }

  lemma {:induction false} CollectAppend<T>(pick: Observation -> seq<T>, xs: seq<Observation>, ys: seq<Observation>)
    ensures Collect(pick, xs + ys) == Collect(pick, xs) + Collect(pick, ys)
  {
    if |ys| == 0 {
      assert xs + ys == xs;
    } else {
      assert (xs + ys)[..|xs + ys| - 1] == xs + ys[..|ys| - 1];
      CollectAppend(pick, xs, ys[..|ys| - 1]);
    }
  }

  lemma CollectOne<T>(pick: Observation -> seq<T>, o: Observation)
    ensures Collect(pick, [o]) == pick(o)
  {
  }

  /** Taking one observation out of the list takes its contribution out of the collection. */
  lemma CollectWithout<T>(pick: Observation -> seq<T>, xs: seq<Observation>, i: nat)
    requires i < |xs|
    ensures multiset(Collect(pick, xs)) == multiset(Collect(pick, xs[..i] + xs[i + 1..])) + multiset(pick(xs[i]))
  {
    hide Collect;
    var before, after := xs[..i], xs[i + 1..];
    assert xs == before + [xs[i]] + after;
    CollectAppend(pick, before + [xs[i]], after);
    CollectAppend(pick, before, [xs[i]]);
    CollectOne(pick, xs[i]);
    CollectAppend(pick, before, after);
  }

  /** A collection forgets the order of the observations, as a multiset. */
  lemma {:induction false} CollectForgetsOrder<T>(pick: Observation -> seq<T>, xs: seq<Observation>,
                                                  ys: seq<Observation>)
    requires multiset(xs) == multiset(ys)
    ensures multiset(Collect(pick, xs)) == multiset(Collect(pick, ys))
  {
    SameMembers(xs, ys);
    if |xs| > 0 {
      var last := xs[|xs| - 1];
      assert last in ys;
      var i :| 0 <= i < |ys| && ys[i] == last;
      var rest := ys[..i] + ys[i + 1..];
      DropLastMultiset(xs);
      assert ys == ys[..i] + [last] + ys[i + 1..];
      assert multiset(rest) == multiset(ys) - multiset{last};
      CollectForgetsOrder(pick, xs[..|xs| - 1], rest);
      CollectWithout(pick, ys, i);
    }
  }

  /** An observation that is not comparable cannot touch the result, wherever it stands. */
  lemma ExcludedObservationsDoNotCount(current: Metadata, stats: Stats, before: seq<Observation>,
                                       excluded: Observation, after: seq<Observation>, minimum: nat)
    requires minimum >= 1 && !Comparable(current, excluded.metadata)
    ensures Analyse(current, stats, before + [excluded] + after, minimum)
            == Analyse(current, stats, before + after, minimum)
  {
    hide BaselineOf, Comparable;
    var pick := IfComparable(current);
    CollectAppend(pick, before + [excluded], after);
    CollectAppend(pick, before, [excluded]);
    CollectOne(pick, excluded);
    CollectAppend(pick, before, after);
    assert Collect(pick, before) + [] == Collect(pick, before);
    assert Comparables(current, before + [excluded] + after) == Comparables(current, before + after);
  }

  lemma {:induction false} OnlyComparables(current: Metadata, prior: seq<Observation>)
    ensures forall o | o in Comparables(current, prior) :: o in prior && Comparable(current, o.metadata)
  {
    hide Comparable;
    if |prior| > 0 {
      OnlyComparables(current, prior[..|prior| - 1]);
    }
  }

  /** An incomplete observation is compared with nothing, and a status above it means what it says. */
  lemma StatusMeans(current: Metadata, stats: Stats, prior: seq<Observation>, minimum: nat)
    requires minimum >= 1
    ensures var a := Analyse(current, stats, prior, minimum);
            && (a.status == Incomplete ==> a.comparable == [])
            && (a.status == Available <==>
                  |a.comparable| >= minimum && (HasScore(a.baseline.bands) || HasScore(a.baseline.features)))
  {
    OnlyComparables(current, prior);
    var comparable := Comparables(current, prior);
    if |comparable| > 0 {
      assert comparable[0] in comparable;
      assert Complete(current);
    }
  }

  lemma ScoredForgetsOrder(current: seq<real>, xs: seq<real>, ys: seq<real>, minimum: nat)
    requires minimum >= 1 && multiset(xs) == multiset(ys)
    ensures Scored(current, xs, minimum) == Scored(current, ys, minimum)
  {
    hide RobustDeviationOf;
    SameMembers(xs, ys);
    if |current| > 0 && |xs| >= minimum {
      OrderDoesNotMatter(current[0], xs, ys);
    }
  }

  lemma BandsForgetOrder(stats: Stats, xs: seq<Observation>, ys: seq<Observation>, minimum: nat, names: set<string>)
    requires minimum >= 1 && multiset(xs) == multiset(ys)
    ensures BandScores(stats, xs, minimum, names) == BandScores(stats, ys, minimum, names)
  {
    hide Scored, Collect;
    forall band ensures BandScore(stats, xs, minimum, band) == BandScore(stats, ys, minimum, band) {
      CollectForgetsOrder((o: Observation) => MedianOf(o.stats, band), xs, ys);
      ScoredForgetsOrder(MedianOf(stats, band), BandHistory(xs, band), BandHistory(ys, band), minimum);
    }
  }

  lemma FeaturesForgetOrder(stats: Stats, xs: seq<Observation>, ys: seq<Observation>, minimum: nat, names: set<string>)
    requires minimum >= 1 && multiset(xs) == multiset(ys)
    ensures FeatureScores(stats, xs, minimum, names) == FeatureScores(stats, ys, minimum, names)
  {
    hide Scored, Collect;
    forall name ensures FeatureScore(stats, xs, minimum, name) == FeatureScore(stats, ys, minimum, name) {
      CollectForgetsOrder((o: Observation) => FeatureOf(o.stats, name), xs, ys);
      ScoredForgetsOrder(FeatureOf(stats, name), FeatureHistory(xs, name), FeatureHistory(ys, name), minimum);
    }
  }

  lemma BaselineForgetsOrder(stats: Stats, xs: seq<Observation>, ys: seq<Observation>, minimum: nat)
    requires minimum >= 1 && multiset(xs) == multiset(ys)
    ensures BaselineOf(stats, xs, minimum) == BaselineOf(stats, ys, minimum)
  {
    SameMembers(xs, ys);
    BandsForgetOrder(stats, xs, ys, minimum, stats.medians.Keys);
    FeaturesForgetOrder(stats, xs, ys, minimum, stats.features.Keys);
  }

  /** The prior observations may come in any order: the status, the whole baseline and the set of
      comparable observations stay the same. */
  lemma AnalysisForgetsOrder(current: Metadata, stats: Stats, xs: seq<Observation>, ys: seq<Observation>, minimum: nat)
    requires minimum >= 1 && multiset(xs) == multiset(ys)
    ensures var a, b := Analyse(current, stats, xs, minimum), Analyse(current, stats, ys, minimum);
            && a.status == b.status && a.baseline == b.baseline
            && multiset(a.comparable) == multiset(b.comparable)
  {
    hide Collect, BaselineOf;
    CollectForgetsOrder(IfComparable(current), xs, ys);
    SameMembers(Comparables(current, xs), Comparables(current, ys));
    BaselineForgetsOrder(stats, Comparables(current, xs), Comparables(current, ys), minimum);
  }
}
