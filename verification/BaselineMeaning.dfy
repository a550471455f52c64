/** Which values a SAR baseline is computed from and what its statuses say, in terms of the observations
    themselves. */
module BaselineMeaning {
  import opened Wrappers
  import opened RobustDeviation
  import opened SarTemporal

  predicate HasMedian(stats: Stats, band: string) { band in stats.medians && stats.medians[band].Some? }

  /** `ps` are the positions of the observations with a property, in order. */
  ghost predicate Listed(ps: seq<nat>, observations: seq<Observation>, has: Observation -> bool) {
    && (forall i, j | 0 <= i < j < |ps| :: ps[i] < ps[j])
    && (forall i | 0 <= i < |ps| :: ps[i] < |observations|)
    && forall n: nat | n < |observations| :: has(observations[n]) <==> n in ps
  }

  /** There is always such a list. */
  lemma {:induction false} ListedExists(observations: seq<Observation>, has: Observation -> bool) returns (ps: seq<nat>)
    ensures Listed(ps, observations, has)
  {
    ps := [];
    if |observations| > 0 {
      var n := |observations| - 1;
      ps := ListedExists(observations[..n], has);
      forall m: nat | m < n ensures has(observations[m]) <==> m in ps {
        assert observations[..n][m] == observations[m];
      }
      if has(observations[n]) {
        ps := ps + [n];
      }
    }
  }

  /** Collecting at most one value from each observation gives the values at those positions, in order. */
  lemma {:induction false} CollectIs<T>(pick: Observation -> seq<T>, has: Observation -> bool,
                                        observations: seq<Observation>, ps: seq<nat>)
    requires Listed(ps, observations, has)
    requires forall o :: |pick(o)| == if has(o) then 1 else 0
    ensures |Collect(pick, observations)| == |ps|
    ensures forall j | 0 <= j < |ps| :: Collect(pick, observations)[j] == pick(observations[ps[j]])[0]
  {
    ListedAtMost(ps, |observations|);
    if |observations| > 0 {
      var n := |observations| - 1;
      var front, last := observations[..n], observations[n];
      if has(last) {
        LastListed(ps, observations, has);
        CollectIs(pick, has, front, ps[..|ps| - 1]);
      } else {
        NotListed(ps, observations, has);
        CollectIs(pick, has, front, ps);
      }
    }
  }

  lemma LastListed(ps: seq<nat>, observations: seq<Observation>, has: Observation -> bool)
    requires Listed(ps, observations, has) && |observations| > 0 && has(observations[|observations| - 1])
    ensures |ps| > 0 && ps[|ps| - 1] == |observations| - 1
    ensures Listed(ps[..|ps| - 1], observations[..|observations| - 1], has)
  {
    var n := |observations| - 1;
    assert n in ps;
    var j :| 0 <= j < |ps| && ps[j] == n;
    forall m: nat | m < n ensures has(observations[..n][m]) <==> m in ps[..|ps| - 1] {
      assert has(observations[m]) <==> m in ps;
    }
  }

  lemma NotListed(ps: seq<nat>, observations: seq<Observation>, has: Observation -> bool)
    requires Listed(ps, observations, has) && |observations| > 0 && !has(observations[|observations| - 1])
    ensures Listed(ps, observations[..|observations| - 1], has)
  {
    var n := |observations| - 1;
    forall i | 0 <= i < |ps| ensures ps[i] < n {
      assert ps[i] in ps;
    }
    forall m: nat | m < n ensures has(observations[..n][m]) <==> m in ps {
      assert has(observations[m]) <==> m in ps;
    }
  }

  /** A band has a deviation exactly when the current observation has its median and so have enough of the
      observations; it is then the deviation of that median from all of those, in order. */
  lemma BandsMean(current: Stats, observations: seq<Observation>, minimum: nat, band: string, ps: seq<nat>)
    requires minimum >= 1 && Listed(ps, observations, (o: Observation) => HasMedian(o.stats, band))
    ensures var b := BaselineOf(current, observations, minimum);
            && (band in b.bands <==> HasMedian(current, band) && |ps| >= minimum)
            && (band in b.bands ==>
                  exists values :: |values| == |ps| && IsDeviation(b.bands[band], current.medians[band].value, values)
                                   && forall j | 0 <= j < |ps| ::
                                        values[j] == observations[ps[j]].stats.medians[band].value)
  {
    hide RobustDeviationOf, IsDeviation, Collect;
    var pick := (o: Observation) => MedianOf(o.stats, band);
    CollectIs(pick, (o: Observation) => HasMedian(o.stats, band), observations, ps);
    ListedAtMost(ps, |observations|);
    var values := BandHistory(observations, band);
    forall j | 0 <= j < |ps| ensures values[j] == observations[ps[j]].stats.medians[band].value {
      assert values[j] == pick(observations[ps[j]])[0];
      assert ps[j] in ps;
    }
    if HasMedian(current, band) && |ps| >= minimum {
      DeviationMeans(current.medians[band].value, values);
    }
  }

  /** And the same for the features. */
  lemma FeaturesMean(current: Stats, observations: seq<Observation>, minimum: nat, name: string, ps: seq<nat>)
    requires minimum >= 1 && Listed(ps, observations, (o: Observation) => name in o.stats.features)
    ensures var b := BaselineOf(current, observations, minimum);
            && (name in b.features <==> name in current.features && |ps| >= minimum)
            && (name in b.features ==>
                  exists values :: |values| == |ps| && IsDeviation(b.features[name], current.features[name], values)
                                   && forall j | 0 <= j < |ps| ::
                                        values[j] == observations[ps[j]].stats.features[name])
  {
    hide RobustDeviationOf, IsDeviation, Collect;
    var pick := (o: Observation) => FeatureOf(o.stats, name);
    CollectIs(pick, (o: Observation) => name in o.stats.features, observations, ps);
    ListedAtMost(ps, |observations|);
    var values := FeatureHistory(observations, name);
    forall j | 0 <= j < |ps| ensures values[j] == observations[ps[j]].stats.features[name] {
      assert values[j] == pick(observations[ps[j]])[0];
      assert ps[j] in ps;
    }
    if name in current.features && |ps| >= minimum {
      DeviationMeans(current.features[name], values);
    }
  }

  lemma {:induction false} ListedAtMost(ps: seq<nat>, n: nat)
    requires (forall i, j | 0 <= i < j < |ps| :: ps[i] < ps[j]) && forall i | 0 <= i < |ps| :: ps[i] < n
    ensures |ps| <= n
  {
    if |ps| > 0 {
      ListedAtMost(ps[..|ps| - 1], ps[|ps| - 1]);
    }
  }

  /** A baseline is insufficient exactly with too few observations, available exactly when one of its
      deviations has a spread of more than a millionth, and degenerate otherwise. */
  lemma BaselineStatusMeans(current: Stats, observations: seq<Observation>, minimum: nat)
    requires minimum >= 1
    ensures var b := BaselineOf(current, observations, minimum);
            && (b.status == InsufficientObservations <==> |observations| < minimum)
            && (b.status == BaselineAvailable <==>
                  || (exists band :: band in b.bands && b.bands[band].mad > 0.000001)
                  || (exists name :: name in b.features && b.features[name].mad > 0.000001))
  {
    hide Median, Mad, Collect;
  }

  /** Every observation that is compared is one of the prior ones and comparable, in their order, and none
      of those is missing. */
  lemma ComparablesAre(current: Metadata, prior: seq<Observation>, ps: seq<nat>)
    requires Listed(ps, prior, (o: Observation) => Comparable(current, o.metadata))
    ensures |Comparables(current, prior)| == |ps|
    ensures forall j | 0 <= j < |ps| :: Comparables(current, prior)[j] == prior[ps[j]]
  {
    hide Comparable, Collect;
    CollectIs(IfComparable(current), (o: Observation) => Comparable(current, o.metadata), prior, ps);
    forall j | 0 <= j < |ps| ensures Comparables(current, prior)[j] == prior[ps[j]] {
      assert ps[j] in ps;
    }
  }

  lemma {:induction false} NoneComparable(current: Metadata, prior: seq<Observation>)
    ensures Comparables(current, prior) == [] <==> forall o | o in prior :: !Comparable(current, o.metadata)
  {
    hide Comparable;
    if |prior| > 0 {
      NoneComparable(current, prior[..|prior| - 1]);
      assert prior[|prior| - 1] in prior;
    }
  }

  /** The status of an analysis, by what there is to compare with. */
  lemma AnalysisMeans(current: Metadata, stats: Stats, prior: seq<Observation>, minimum: nat)
    requires minimum >= 1
    ensures var a := Analyse(current, stats, prior, minimum);
            && (a.status == Incomplete <==> !Complete(current))
            && (a.status == NoComparableHistory <==>
                  Complete(current) && forall o | o in prior :: !Comparable(current, o.metadata))
            && (a.status == InsufficientBaseline <==> 0 < |a.comparable| < minimum)
            && (a.status in {Degenerate, Available} <==> minimum <= |a.comparable|)
            && (a.status == Available <==> a.baseline.status == BaselineAvailable)
            && a.baseline == BaselineOf(stats, a.comparable, minimum)
  {
    hide BaselineOf, Collect, Complete;
    NoneComparable(current, prior);
    StatusMeans(current, stats, prior, minimum);
    OnlyOfComplete(current, prior);
    BaselineStatusMeans(stats, Comparables(current, prior), minimum);
  }

  lemma OnlyOfComplete(current: Metadata, prior: seq<Observation>)
    ensures !Complete(current) ==> Comparables(current, prior) == []
  {
    NoneComparable(current, prior);
  }
}
