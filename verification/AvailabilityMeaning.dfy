/** What a reported field date says: which evidence makes a date available, which makes it unavailable and
    why, and whose numbers are reported. */
module AvailabilityMeaning {
  import opened Wrappers
  import opened StableSorting
  import opened FieldSelection

  // ---- Causes, by the evidence alone ----

  /** The field lies on the raster and was measured there. */
  predicate OnRaster(s: Scene) { s.evidence.Measured? && s.evidence.mask.fieldPixels > 0 }

  predicate OffRaster(s: Scene) { s.evidence.Measured? && s.evidence.mask.fieldPixels == 0 }

  predicate PoorlyCovered(s: Scene, settings: Settings) {
    OnRaster(s) && s.evidence.mask.coveragePercent < settings.minCoverage
  }

  predicate Overcast(s: Scene, settings: Settings, q: Query) {
    && OnRaster(s) && s.evidence.mask.coveragePercent >= settings.minCoverage
    && s.evidence.mask.obscuredPercent > q.maxCloud
  }

  /** Covered and clear enough, but one of the two rasters has too few pixels. */
  predicate Empty(s: Scene, settings: Settings, q: Query) {
    && OnRaster(s) && s.evidence.mask.coveragePercent >= settings.minCoverage
    && s.evidence.mask.obscuredPercent <= q.maxCloud
    && (s.evidence.index.validPixels < settings.minUsablePixels || s.evidence.mask.usable < settings.minUsablePixels)
  }

  predicate Fit(s: Scene, settings: Settings, q: Query) {
    && s.evidence.Measured?
    && s.evidence.mask.coveragePercent >= settings.minCoverage && s.evidence.mask.obscuredPercent <= q.maxCloud
    && s.evidence.index.validPixels >= settings.minUsablePixels && s.evidence.mask.usable >= settings.minUsablePixels
  }

  /** The numbers reported for a scene are its own: the mask's percentages, and of the index and the mask
      raster the lesser number of pixels and the lesser usable share. */
  predicate NumbersOf(m: Metrics, s: Scene) {
    && s.evidence.Measured?
    && m.cloud == s.evidence.mask.cloudPercent && m.shadow == s.evidence.mask.shadowPercent
    && m.obscured == s.evidence.mask.obscuredPercent && m.coverage == s.evidence.mask.coveragePercent
    && m.usable <= s.evidence.index.usablePercentage && m.usable <= s.evidence.mask.usablePercent
    && m.usable in {s.evidence.index.usablePercentage, s.evidence.mask.usablePercent}
    && m.validPixels <= s.evidence.index.validPixels && m.validPixels <= s.evidence.mask.usable
    && m.validPixels in {s.evidence.index.validPixels, s.evidence.mask.usable}
  }

  lemma NumbersAreOwn(s: Scene)
    requires s.evidence.Measured?
    ensures NumbersOf(MetricsOf(s.evidence), s)
  {
  }

  /** A scene is admitted exactly when its evidence is fit and, for ResourceSat, it is an exact-date
      composite. */
  lemma AdmittedMeans(s: Scene, settings: Settings, q: Query)
    ensures Admitted(s, settings, q) <==> Fit(s, settings, q) && (q.source == ResourceSat ==> s.exactDateComposite)
  {
  }

  /** Each status and each reason of a rejection has its cause, and each cause its status and reason. */
  lemma RejectionMeans(s: Scene, settings: Settings, q: Query)
    ensures var r := RejectionOf(s, settings, q);
            && (r.None? <==> OnRaster(s) && Fit(s, settings, q))
            && (r.Some? && r.value.status == CloudThresholdExceeded <==> Overcast(s, settings, q))
            && (r.Some? && r.value.status == InsufficientFieldCoverage <==> PoorlyCovered(s, settings))
            && (r.Some? && r.value.status == NoFieldIntersection <==> OffRaster(s))
            && (r.Some? && r.value.status == ProcessingPending <==> s.evidence.NoRaster? || s.evidence.NoMask?)
            && (r.Some? && r.value.status == ProcessingFailed <==> s.evidence.Unreadable? || Empty(s, settings, q))
    ensures var r := RejectionOf(s, settings, q);
            r.Some? ==>
              && (r.value.reason == OverCloudLimit <==> Overcast(s, settings, q))
              && (r.value.reason == LowCoverage <==> PoorlyCovered(s, settings))
              && (r.value.reason == NoRasterIntersection <==> OffRaster(s))
              && (r.value.reason == ScenePending <==> s.evidence.NoRaster?)
              && (r.value.reason == MaskPending <==> s.evidence.NoMask?)
              && (r.value.reason == ReadFailed <==> s.evidence.Unreadable?)
              && (r.value.reason == NoValidPixels <==> Empty(s, settings, q))
              && r.value.selected == Some(s.date)
              && (r.value.metrics.Some? <==> s.evidence.Measured?)
              && (r.value.metrics.Some? ==> NumbersOf(r.value.metrics.value, s))
  {
  }

  // ---- The explanation of an unavailable date ----

  /** The statuses of rejections in the order in which they are preferred. */
  predicate Preferred(a: Status, b: Status) {
    match a
    case CloudThresholdExceeded => true
    case ProcessingFailed => b != CloudThresholdExceeded
    case ProcessingPending => b !in {CloudThresholdExceeded, ProcessingFailed}
    case InsufficientFieldCoverage => b in {InsufficientFieldCoverage, NoFieldIntersection, Available}
    case NoFieldIntersection => b in {NoFieldIntersection, Available}
    case Available => b == Available
  }

  /** Of two rejections: the preferred status, then the larger coverage, then the more valid pixels; a
      rejection without numbers counts as zero of both. */
  predicate NoWorse(a: Rejection, b: Rejection) {
    var x := match a.metrics case Some(m) => (m.coverage, m.validPixels) case None => (0.0, 0);
    var y := match b.metrics case Some(m) => (m.coverage, m.validPixels) case None => (0.0, 0);
    && Preferred(a.status, b.status)
    && (a.status == b.status ==> x.0 > y.0 || (x.0 == y.0 && x.1 >= y.1))
  }

  lemma RejectionKeyMeans(a: Rejection, b: Rejection)
    ensures KeyLeq(RejectionKey()(a), RejectionKey()(b)) <==> NoWorse(a, b)
  {
    var x, y := RejectionKey()(a).numbers, RejectionKey()(b).numbers;
    assert NumbersBefore(x[1..], y[1..]) <==> x[1] < y[1] by { assert x[1..][1..] == [] && y[1..][1..] == []; }
    assert NumbersBefore(x, y) <==> x[0] < y[0] || (x[0] == y[0] && x[1] < y[1]);
    assert x == [x[0], x[1]] && y == [y[0], y[1]];
    assert StringLeq("", "");
  }

  /** Without a read failure the explanation is the rejection of a listed scene than which no listed scene's
      is better, or that there is no listed scene, or that nothing rejects any. */
  lemma ExplanationIsOf(scenes: seq<Scene>, settings: Settings, q: Query)
    ensures var listed, e := ListCandidates(scenes, q.date, 0, settings.maxScenes), Explanation(scenes, settings, q, 0);
            if listed == [] then e == Rejection(NoFieldIntersection, None, None, NoSceneIntersection)
            else if forall s | s in listed :: RejectionOf(s, settings, q).None?
            then e == Rejection(ProcessingPending, None, None, ScenePending)
            else (exists t :: t in listed && RejectionOf(t, settings, q) == Some(e))
                 && forall s | s in listed && RejectionOf(s, settings, q).Some? ::
                      NoWorse(e, RejectionOf(s, settings, q).value)
  {
    hide RejectionOf, FirstMin, ListCandidates, KeyLeq, NoWorse;
    var listed := ListCandidates(scenes, q.date, 0, settings.maxScenes);
    var rejections := Rejections(listed, settings, q);
    forall r ensures r in rejections <==> exists s :: s in listed && RejectionOf(s, settings, q) == Some(r) {
      RejectionsAre(listed, settings, q, r);
    }
    if |rejections| > 0 {
      var e := FirstMin(RejectionKey(), rejections);
      assert e in rejections && rejections[0] in rejections;
      forall s | s in listed && RejectionOf(s, settings, q).Some?
        ensures NoWorse(e, RejectionOf(s, settings, q).value)
      {
        MinIsLeast(RejectionKey(), rejections, RejectionOf(s, settings, q).value);
        RejectionKeyMeans(e, RejectionOf(s, settings, q).value);
      }
    }
  }

  /** Exactly when an unavailable date without a read failure is given which status: the causes are looked
      for among the scenes of the date in this order. */
  lemma StatusesMean(scenes: seq<Scene>, settings: Settings, q: Query)
    ensures var listed := ListCandidates(scenes, q.date, 0, settings.maxScenes);
            var status := Explanation(scenes, settings, q, 0).status;
            var overcast := exists s :: s in listed && Overcast(s, settings, q);
            var failed := exists s :: s in listed && (s.evidence.Unreadable? || Empty(s, settings, q));
            var pending := exists s :: s in listed && (s.evidence.NoRaster? || s.evidence.NoMask?);
            var poor := exists s :: s in listed && PoorlyCovered(s, settings);
            var off := exists s :: s in listed && OffRaster(s);
            && (status == CloudThresholdExceeded <==> overcast)
            && (status == ProcessingFailed <==> !overcast && failed)
            && (status == ProcessingPending <==> !overcast && !failed && (pending || (listed != [] && !poor && !off)))
            && (status == InsufficientFieldCoverage <==> !overcast && !failed && !pending && poor)
            && (status == NoFieldIntersection <==>
                  listed == [] || (!overcast && !failed && !pending && !poor && off))
  {
    hide RejectionOf, ListCandidates, Explanation, Overcast, Empty, PoorlyCovered, OffRaster;
    var listed := ListCandidates(scenes, q.date, 0, settings.maxScenes);
    ExplanationIsOf(scenes, settings, q);
    forall s | s in listed
      ensures var r := RejectionOf(s, settings, q);
              && (r.Some? && r.value.status == CloudThresholdExceeded <==> Overcast(s, settings, q))
              && (r.Some? && r.value.status == InsufficientFieldCoverage <==> PoorlyCovered(s, settings))
              && (r.Some? && r.value.status == NoFieldIntersection <==> OffRaster(s))
              && (r.Some? && r.value.status == ProcessingPending <==> s.evidence.NoRaster? || s.evidence.NoMask?)
              && (r.Some? && r.value.status == ProcessingFailed <==> s.evidence.Unreadable? || Empty(s, settings, q))
              && (r.Some? ==> r.value.status != Available)
    {
      RejectionMeans(s, settings, q);
      if RejectionOf(s, settings, q).Some? { RejectionNamesScene(s, settings, q); }
    }
  }

  // ---- A reported date ----

  /** The numbers of an availability. */
  predicate Reports(a: Availability, m: Metrics) {
    && a.usable == Some(m.usable) && a.cloud == Some(m.cloud) && a.coverage == Some(m.coverage)
    && a.shadow == Some(m.shadow) && a.obscured == Some(m.obscured) && a.validPixels == m.validPixels
  }

  /** A date is available exactly when one of its scenes is fit; it then reports that scene's numbers, of the
      best one. Otherwise it reports the failure of a read, or the explanation and the numbers of the
      rejected scene if it has any. */
  lemma DateMeans(scenes: seq<Scene>, settings: Settings, q: Query)
    ensures var a := DateAvailability(scenes, settings, q);
            var listed := ListCandidates(scenes, q.date, 0, settings.maxScenes);
            var read := forall s | s in listed && (q.source == ResourceSat ==> s.exactDateComposite) ::
                          !s.evidence.Unreadable?;
            && a.date == q.date && (a.available <==> a.status == Available)
            && (a.available <==> exists s :: && s in listed && Fit(s, settings, q)
                                             && (q.source == ResourceSat ==> s.exactDateComposite))
            && (a.available ==>
                  a.selected == Some(q.date) && a.reason == None
                  && exists s, m :: s in listed && Fit(s, settings, q) && NumbersOf(m, s) && Reports(a, m))
            && (!a.available && !read ==>
                  a.status == ProcessingFailed && a.reason == Some(ReadFailed) && a.selected == None
                  && a.usable == a.cloud == a.coverage == a.shadow == a.obscured == None && a.validPixels == 0)
            && (!a.available && read ==>
                  var e := Explanation(scenes, settings, q, 0);
                  && a.status == e.status && a.reason == Some(e.reason) && a.selected == e.selected
                  && match e.metrics
                     case Some(m) => Reports(a, m)
                     case None => a.usable == a.cloud == a.coverage == a.shadow == a.obscured == None
                                  && a.validPixels == 0)
  {
    hide Candidates, Explanation, FirstMin, Options, NumbersOf, Fit;
    var candidates := Candidates(scenes, settings, q, 0);
    var listed := ListCandidates(scenes, q.date, 0, settings.maxScenes);
    forall s ensures s in candidates <==> s in listed { CandidateMeans(scenes, settings, q, 0, s); }
    AvailableExactlyWhen(candidates, settings, q);
    FailuresMean(candidates, q);
    match Choice(candidates, settings, q) {
      case Some(s) =>
        ChoiceIsBest(candidates, settings, q, s);
        CandidateMeans(scenes, settings, q, 0, s);
        AdmittedMeans(s, settings, q);
        NumbersAreOwn(s);
        assert Reports(DateAvailability(scenes, settings, q), MetricsOf(s.evidence));
      case None =>
        ExplanationUnavailable(scenes, settings, q, Failures(candidates, q));
        FailureExplains(scenes, settings, q, Failures(candidates, q));
    }
  }

  lemma AvailableExactlyWhen(candidates: seq<Scene>, settings: Settings, q: Query)
    ensures Choice(candidates, settings, q).Some?
            <==> exists s :: && s in candidates && Fit(s, settings, q)
                             && (q.source == ResourceSat ==> s.exactDateComposite)
  {
    hide Choice, Fit, Admitted;
    forall s
      ensures Admitted(s, settings, q) <==> Fit(s, settings, q) && (q.source == ResourceSat ==> s.exactDateComposite)
    {
      AdmittedMeans(s, settings, q);
    }
    if s :| s in candidates && Admitted(s, settings, q) {
      ChoiceIsBest(candidates, settings, q, s);
    }
    match Choice(candidates, settings, q) {
      case Some(s) => ChoiceIsBest(candidates, settings, q, s);
      case None =>
    }
  }

  lemma {:induction false} FailuresMean(candidates: seq<Scene>, q: Query)
    ensures Failures(candidates, q) == 0
            <==> forall s | s in candidates && (q.source == ResourceSat ==> s.exactDateComposite) ::
                   !s.evidence.Unreadable?
  {
    if |candidates| > 0 {
      FailuresMean(candidates[..|candidates| - 1], q);
      assert candidates[|candidates| - 1] in candidates;
    }
  }

  lemma FailureExplains(scenes: seq<Scene>, settings: Settings, q: Query, failures: nat)
    ensures failures > 0 ==>
              Explanation(scenes, settings, q, failures) == Rejection(ProcessingFailed, None, None, ReadFailed)
  {
  }

  lemma ExplanationUnavailable(scenes: seq<Scene>, settings: Settings, q: Query, failures: nat)
    ensures Explanation(scenes, settings, q, failures).status != Available
  {
    hide RejectionOf, FirstMin, ListCandidates;
    ExplanationIsOf(scenes, settings, q);
    var listed := ListCandidates(scenes, q.date, 0, settings.maxScenes);
    forall s | s in listed
      ensures RejectionOf(s, settings, q).Some? ==> RejectionOf(s, settings, q).value.status != Available
    {
      RejectionMeans(s, settings, q);
      if RejectionOf(s, settings, q).Some? { RejectionNamesScene(s, settings, q); }
    }
  }

  /** The scenes of a date, where the limit does not cut, are all the stored scenes of that date. */
  lemma ScenesOfDate(scenes: seq<Scene>, settings: Settings, q: Query, s: Scene)
    ensures s in ListCandidates(scenes, q.date, 0, settings.maxScenes) ==> s in scenes && s.date == q.date
    ensures |InWindow(scenes, q.date, 0)| <= settings.maxScenes && s in scenes && s.date == q.date ==>
              s in ListCandidates(scenes, q.date, 0, settings.maxScenes)
  {
    hide InWindow;
    WindowMembers(scenes, q.date, 0, s);
    if s in ListCandidates(scenes, q.date, 0, settings.maxScenes) {
      ListedAreScenes(scenes, q.date, 0, settings.maxScenes, s);
    }
    ListedIfUncut(scenes, settings, q, s);
  }

  lemma ListedIfUncut(scenes: seq<Scene>, settings: Settings, q: Query, s: Scene)
    ensures |InWindow(scenes, q.date, 0)| <= settings.maxScenes && s in InWindow(scenes, q.date, 0) ==>
              s in ListCandidates(scenes, q.date, 0, settings.maxScenes)
  {
    hide InWindow, Sort;
    var within := InWindow(scenes, q.date, 0);
    SameMembers(Sort(ByDistanceAndTime(q.date), within), within);
  }

  // ---- Mask classes ----

  /** The mask classes of each source: which are usable, which are cloud or snow, and which shadow. */
  lemma PoliciesMean(cls: int)
    ensures cls in MaskPolicy(Landsat).usable <==> cls == 1 || cls == 4
    ensures cls in MaskPolicy(Landsat).cloud <==> cls == 2 || cls == 5
    ensures cls in MaskPolicy(ResourceSat).usable <==> cls == 1 || cls == 4
    ensures cls in MaskPolicy(ResourceSat).cloud <==> cls == 2
    ensures cls in MaskPolicy(Sentinel2).usable <==> cls == 4 || cls == 5 || cls == 6
    ensures cls in MaskPolicy(Sentinel2).cloud <==> cls == 8 || cls == 9 || cls == 10
    ensures forall source :: && (cls in MaskPolicy(source).shadow <==> cls == 3)
                             && (cls in MaskPolicy(source).nodata <==> cls == 0)
  {
  }
}
