/** What histories of Landsat runs with failures come to: mirrors are kept for good, downloads are
    counted exactly, and a scene without a footprint never completes where publication is needed. */
module LandsatHistories {
  import opened Wrappers
  import opened LandsatCatalog
  import opened LandsatRuns
  import opened LandsatConvergence
  import opened LandsatMirrors

  datatype Run = Run(settings: Settings, items: seq<Item>, mode: Mode, budgets: seq<Budget>)

  /** The catalogue after any runs, each with its own settings, mode, items and failures. */
  function History(c: Catalog, runs: seq<Run>): Catalog
    requires forall r | r in runs :: |r.budgets| == |r.items|
  {
    if |runs| == 0 then c else
      var last := runs[|runs| - 1];
      RunAll(History(c, runs[..|runs| - 1]), last.settings, last.items, last.mode, last.budgets).0
  }

  // ---- A history turn by turn ----

  /** One turn of the item loop, with all that it starts from. */
  datatype Turn = Turn(catalog: Catalog, settings: Settings, item: Item, mode: Mode, newScenes: nat, budget: Budget)

  function After(t: Turn): Catalog {
    ItemStep(t.catalog, t.settings, t.item, t.mode, t.newScenes, t.budget).catalog
  }

  function RunTurns(c: Catalog, r: Run): seq<Turn>
    requires |r.budgets| == |r.items|
    decreases |r.items|
  {
    if |r.items| == 0 then [] else
      var n := |r.items| - 1;
      var (now, sum) := RunAll(c, r.settings, r.items[..n], r.mode, r.budgets[..n]);
      RunTurns(c, r.(items := r.items[..n], budgets := r.budgets[..n]))
      + [Turn(now, r.settings, r.items[n], r.mode, sum.newScenes, r.budgets[n])]
  }

  function Turns(c: Catalog, runs: seq<Run>): seq<Turn>
    requires forall r | r in runs :: |r.budgets| == |r.items|
  {
    if |runs| == 0 then [] else
      var before := runs[..|runs| - 1];
      Turns(c, before) + RunTurns(History(c, before), runs[|runs| - 1])
  }

  /** Each turn starts from what the turns before it left. */
  predicate Chain(c: Catalog, ts: seq<Turn>, d: Catalog) {
    if |ts| == 0 then c == d else
      Chain(c, ts[..|ts| - 1], ts[|ts| - 1].catalog) && After(ts[|ts| - 1]) == d
  }

  lemma {:induction false} ChainAppends(c: Catalog, xs: seq<Turn>, d: Catalog, ys: seq<Turn>, e: Catalog)
    requires Chain(c, xs, d) && Chain(d, ys, e)
    ensures Chain(c, xs + ys, e)
    decreases |ys|
  {
    hide After;
    if |ys| == 0 {
      assert xs + ys == xs;
    } else {
      assert (xs + ys)[..|xs + ys| - 1] == xs + ys[..|ys| - 1];
      ChainAppends(c, xs, d, ys[..|ys| - 1], ys[|ys| - 1].catalog);
    }
  }

  lemma {:induction false} RunChains(c: Catalog, r: Run)
    requires |r.budgets| == |r.items|
    ensures Chain(c, RunTurns(c, r), RunAll(c, r.settings, r.items, r.mode, r.budgets).0)
    ensures forall t | t in RunTurns(c, r) :: t.item in r.items
    decreases |r.items|
  {
    hide ItemStep, RunAll;
    if |r.items| == 0 {
      NoItems(c, r.settings, r.mode);
    } else {
      var n := |r.items| - 1;
      RunChains(c, r.(items := r.items[..n], budgets := r.budgets[..n]));
      RunLast(c, r.settings, r.items, r.mode, r.budgets);
    }
  }

  lemma {:induction false} HistoryChains(c: Catalog, runs: seq<Run>)
    requires forall r | r in runs :: |r.budgets| == |r.items|
    ensures Chain(c, Turns(c, runs), History(c, runs))
    ensures forall t | t in Turns(c, runs) :: exists r :: r in runs && t.item in r.items
  {
    hide Chain, RunAll, RunTurns;
    if |runs| == 0 {
      NoTurns(c);
    } else {
      var before, last := runs[..|runs| - 1], runs[|runs| - 1];
      assert last in runs;
      HistoryChains(c, before);
      RunChains(History(c, before), last);
      ChainAppends(c, Turns(c, before), History(c, before), RunTurns(History(c, before), last), History(c, runs));
    }
  }

  lemma NoTurns(c: Catalog)
    ensures Chain(c, [], c)
  {
  }

  predicate Unpublishable(c: Catalog, p: Product) {
    p in c.scenes ==> !c.scenes[p].published && !c.scenes[p].footprint
  }

  lemma StepKeepsUnpublishable(c: Catalog, pgstac: bool, item: Item, e: Effect, budget: Budget, p: Product)
    requires Unpublishable(c, p) && (item.product == p ==> !item.footprint)
    ensures Unpublishable(Step(c, pgstac, item, e, budget).catalog, p)
  {
    hide LacksBand;
  }

  lemma {:induction false} EffectsKeepUnpublishable(c: Catalog, pgstac: bool, item: Item, es: seq<Effect>,
                                                    budget: Budget, p: Product)
    requires Unpublishable(c, p) && (item.product == p ==> !item.footprint)
    ensures Unpublishable(Performed(c, pgstac, item, es, budget).catalog, p)
    decreases |es|
  {
    hide Step, Unpublishable;
    if |es| > 0 {
      var first := Step(c, pgstac, item, es[0], budget);
      StepKeepsUnpublishable(c, pgstac, item, es[0], budget, p);
      EffectsKeepUnpublishable(first.catalog, pgstac, item, es[1..], first.budget, p);
    }
  }

  lemma {:induction false} ChainKeepsUnpublishable(c: Catalog, ts: seq<Turn>, d: Catalog, p: Product)
    requires Chain(c, ts, d) && Unpublishable(c, p)
    requires forall t | t in ts && t.item.product == p :: !t.item.footprint
    ensures Unpublishable(d, p)
  {
    hide Performed, Unpublishable, Effects, Complete;
    if |ts| > 0 {
      var last := ts[|ts| - 1];
      ChainKeepsUnpublishable(c, ts[..|ts| - 1], last.catalog, p);
      EffectsKeepUnpublishable(last.catalog, last.settings.pgstac, last.item, Effects(last.mode), last.budget, p);
    }
  }

  /** A scene whose items never have a footprint is never complete for a run with a pgSTAC catalogue,
      whatever runs there have been, so every such run takes it up again. */
  lemma NoFootprintNeverCompletes(c: Catalog, runs: seq<Run>, p: Product)
    requires (forall r | r in runs :: |r.budgets| == |r.items|) && Unpublishable(c, p)
    requires forall r, x | r in runs && x in r.items && x.product == p :: !x.footprint
    ensures Unpublishable(History(c, runs), p) && !Complete(History(c, runs), true, p)
  {
    hide History, Turns, Chain;
    HistoryChains(c, runs);
    ChainKeepsUnpublishable(c, Turns(c, runs), History(c, runs), p);
  }

  // ---- Mirrors ----

  ghost predicate WellFormed(runs: seq<Run>) {
    forall r | r in runs :: |r.budgets| == |r.items| && forall x | x in r.items :: NamesObjects(x)
  }

  ghost predicate Named(ts: seq<Turn>) { forall t | t in ts :: NamesObjects(t.item) }

  lemma WellFormedTurns(c: Catalog, runs: seq<Run>)
    requires WellFormed(runs)
    ensures Named(Turns(c, runs)) && Chain(c, Turns(c, runs), History(c, runs))
  {
    hide Turns, History, NamesObjects, Chain;
    HistoryChains(c, runs);
  }

  lemma TurnKeepsFact(t: Turn, p: Product, f: Fact)
    requires NamesObjects(t.item) && Holds(t.catalog, p, f)
    ensures Holds(After(t), p, f)
  {
    hide Performed, Effects, Holds, Complete;
    ModesAreProper(t.mode);
    FactsStay(t.catalog, t.settings.pgstac, t.item, Effects(t.mode), t.budget, p, f);
  }

  lemma {:induction false} ChainKeepsFact(c: Catalog, ts: seq<Turn>, d: Catalog, p: Product, f: Fact)
    requires Chain(c, ts, d) && Named(ts) && Holds(c, p, f)
    ensures Holds(d, p, f)
  {
    hide After, Holds, NamesObjects;
    if |ts| > 0 {
      ChainKeepsFact(c, ts[..|ts| - 1], ts[|ts| - 1].catalog, p, f);
      TurnKeepsFact(ts[|ts| - 1], p, f);
    }
  }

  /** Over any runs with any failures a recorded mirror keeps its path and checksum. */
  lemma MirroredForGood(c: Catalog, runs: seq<Run>, p: Product, k: AssetKey, path: string, checksum: Option<string>)
    requires WellFormed(runs) && Holds(c, p, MirroredAs(k, path, checksum))
    ensures Holds(History(c, runs), p, MirroredAs(k, path, checksum))
    ensures var a := History(c, runs).assets;
            && (p, k) in a && a[(p, k)].status == Mirrored
            && a[(p, k)].path == Some(path) && a[(p, k)].checksum == checksum
  {
    hide History, Turns, Chain;
    WellFormedTurns(c, runs);
    ChainKeepsFact(c, Turns(c, runs), History(c, runs), p, MirroredAs(k, path, checksum));
  }

  // ---- Downloads ----

  /** The turn gets past the tests before registration. */
  predicate Attempted(t: Turn) {
    && t.item.valid && !Complete(t.catalog, t.settings.pgstac, t.item.product)
    && !OverCap(t.catalog, t.settings, t.item, t.mode, t.newScenes)
  }

  /** What a turn starts from makes it download the asset. */
  predicate DownloadsIn(t: Turn, p: Product, k: AssetKey) {
    t.item.product == p && Attempted(t) && Downloads(t.catalog, t.item, t.mode, t.budget, k)
  }

  /** And it is cut off before it records the mirror. */
  predicate CutShort(t: Turn, p: Product, k: AssetKey) {
    DownloadsIn(t, p, k) && EndsBeforeRecord(t.catalog, t.item, t.budget, k)
  }

  lemma TurnMirrors(t: Turn, p: Product, k: AssetKey)
    requires NamesObjects(t.item)
    ensures After(t).downloads[(p, k)] == t.catalog.downloads[(p, k)] + One(DownloadsIn(t, p, k))
    ensures MirroredAt(After(t), p, k)
            <==> MirroredAt(t.catalog, p, k) || (DownloadsIn(t, p, k) && !CutShort(t, p, k))
    ensures DownloadsIn(t, p, k) ==> !MirroredAt(t.catalog, p, k)
  {
    hide Performed, Effects, NamesObjects, Complete, CallsBefore;
    if t.item.product == p {
      AttemptMirrors(t.catalog, t.settings.pgstac, t.item, t.mode, t.budget, k);
    } else {
      ItemIsLocal(t.catalog, t.settings.pgstac, t.item, Effects(t.mode), t.budget);
    }
  }

  function CountDownloads(ts: seq<Turn>, p: Product, k: AssetKey): nat {
    if |ts| == 0 then 0 else CountDownloads(ts[..|ts| - 1], p, k) + One(DownloadsIn(ts[|ts| - 1], p, k))
  }

  function CountCutShort(ts: seq<Turn>, p: Product, k: AssetKey): nat {
    if |ts| == 0 then 0 else CountCutShort(ts[..|ts| - 1], p, k) + One(CutShort(ts[|ts| - 1], p, k))
  }

  lemma {:induction false} ChainCounts(c: Catalog, ts: seq<Turn>, d: Catalog, p: Product, k: AssetKey)
    requires Chain(c, ts, d) && Named(ts)
    ensures d.downloads[(p, k)] == c.downloads[(p, k)] + CountDownloads(ts, p, k)
    ensures CountDownloads(ts, p, k) + One(MirroredAt(c, p, k)) == CountCutShort(ts, p, k) + One(MirroredAt(d, p, k))
    ensures MirroredAt(c, p, k) ==> MirroredAt(d, p, k) && CountDownloads(ts, p, k) == 0
  {
    hide After, MirroredAt, NamesObjects, Attempted, Downloads, EndsBeforeRecord;
    if |ts| > 0 {
      ChainCounts(c, ts[..|ts| - 1], ts[|ts| - 1].catalog, p, k);
      TurnMirrors(ts[|ts| - 1], p, k);
    }
  }

  /** The exact number of downloads of an asset over any runs: one for every turn whose budget reached
      its download while it had no mirror, which is one if it came to be mirrored and one for every turn
      whose budget ended between the download and the record. */
  lemma DownloadsCounted(c: Catalog, runs: seq<Run>, p: Product, k: AssetKey)
    requires WellFormed(runs)
    ensures var after, ts := History(c, runs), Turns(c, runs);
            && after.downloads[(p, k)] == c.downloads[(p, k)] + CountDownloads(ts, p, k)
            && CountDownloads(ts, p, k) + One(MirroredAt(c, p, k))
               == CountCutShort(ts, p, k) + One(MirroredAt(after, p, k))
            && (MirroredAt(c, p, k) ==> MirroredAt(after, p, k) && CountDownloads(ts, p, k) == 0)
  {
    hide History, Turns, Chain, MirroredAt, CountDownloads, CountCutShort;
    WellFormedTurns(c, runs);
    ChainCounts(c, Turns(c, runs), History(c, runs), p, k);
  }

  /** A turn downloads the asset although an earlier one had, and was cut short. */
  predicate DownloadsAgain(ts: seq<Turn>, p: Product, k: AssetKey) {
    exists i, j | 0 <= i < j < |ts| :: CutShort(ts[i], p, k) && DownloadsIn(ts[j], p, k)
  }

  lemma {:induction false} ChainDownloadsAgain(c: Catalog, ts: seq<Turn>, d: Catalog, p: Product, k: AssetKey)
    requires Chain(c, ts, d) && Named(ts) && c.downloads[(p, k)] == 0
    ensures d.downloads[(p, k)] > 1 <==> DownloadsAgain(ts, p, k)
    ensures d.downloads[(p, k)] > 0 && !MirroredAt(d, p, k) ==> exists t | t in ts :: CutShort(t, p, k)
    ensures (exists t | t in ts :: CutShort(t, p, k)) ==> d.downloads[(p, k)] > 0
  {
    hide After, MirroredAt, NamesObjects, Attempted, Downloads, EndsBeforeRecord;
    if |ts| > 0 {
      var before, last := ts[..|ts| - 1], ts[|ts| - 1];
      assert ts == before + [last];
      ChainDownloadsAgain(c, before, last.catalog, p, k);
      TurnMirrors(last, p, k);
      AgainExtends(before, last, p, k);
    }
  }

  lemma AgainExtends(before: seq<Turn>, last: Turn, p: Product, k: AssetKey)
    ensures DownloadsAgain(before + [last], p, k)
            <==> DownloadsAgain(before, p, k)
                 || (DownloadsIn(last, p, k) && exists t | t in before :: CutShort(t, p, k))
  {
    hide DownloadsIn, CutShort;
    var ts := before + [last];
    if i, j :| 0 <= i < j < |before| && CutShort(before[i], p, k) && DownloadsIn(before[j], p, k) {
      assert CutShort(ts[i], p, k) && DownloadsIn(ts[j], p, k);
    }
    if DownloadsIn(last, p, k) && exists t | t in before :: CutShort(t, p, k) {
      var i :| 0 <= i < |before| && CutShort(before[i], p, k);
      assert CutShort(ts[i], p, k) && DownloadsIn(ts[|before|], p, k);
    }
  }

  /** An asset is downloaded more than once exactly when a turn whose budget ends between its download
      and its record is followed by another whose budget reaches the download. */
  lemma AtMostOnceExactlyWhen(c: Catalog, runs: seq<Run>, p: Product, k: AssetKey)
    requires WellFormed(runs) && c.downloads[(p, k)] == 0
    ensures History(c, runs).downloads[(p, k)] <= 1 <==> !DownloadsAgain(Turns(c, runs), p, k)
  {
    hide History, Turns, Chain, DownloadsAgain;
    WellFormedTurns(c, runs);
    ChainDownloadsAgain(c, Turns(c, runs), History(c, runs), p, k);
  }

  lemma MirroredAtEnd(c: Catalog, pgstac: bool, item: Item, budget: Budget, k: AssetKey)
    requires NamesObjects(item) && k in REQUIRED
    ensures var done := Performed(c, pgstac, item, Effects(MirrorOnly), budget);
            done.finished ==> MirroredAt(done.catalog, item.product, k)
  {
    hide Performed, MirrorAssets, Registration;
    ModesAreProper(MirrorOnly);
    RecordsMirror(k);
    PerformedSplits(c, pgstac, item, Registration(), MirrorAssets(), budget);
    var first := Performed(c, pgstac, item, Registration(), budget);
    MirroredAfterMirroring(first.catalog, pgstac, item, MirrorAssets(), first.budget, k);
  }

  /** A retry that gets through mirroring downloads exactly the assets that were not recorded as
      mirrored, whatever earlier attempts had downloaded. */
  lemma RetryMirrorsMissing(c: Catalog, pgstac: bool, item: Item, budget: Budget, k: AssetKey)
    requires NamesObjects(item) && k in REQUIRED
    ensures var after := Performed(c, pgstac, item, Effects(MirrorOnly), budget);
            after.finished ==>
              after.catalog.downloads[(item.product, k)]
              == c.downloads[(item.product, k)] + One(!MirroredAt(c, item.product, k))
  {
    hide Performed, Effects, NamesObjects, MirroredAt, CallsBefore;
    AttemptMirrors(c, pgstac, item, MirrorOnly, budget, k);
    MirroredAtEnd(c, pgstac, item, budget, k);
  }

  /** For every asset without a mirror there are budgets, three of them, that make the next attempt
      download it again. */
  lemma DownloadedTwice(c: Catalog, pgstac: bool, item: Item, k: AssetKey, calls: nat)
    requires NamesObjects(item) && k in REQUIRED && !MirroredAt(c, item.product, k)
    ensures var cut := Performed(c, pgstac, item, Effects(MirrorOnly), Some(calls));
            var again := Performed(cut.catalog, pgstac, item, Effects(MirrorOnly), None);
            again.finished
            && (again.catalog.downloads[(item.product, k)] == c.downloads[(item.product, k)] + 2
                <==> 2 <= calls - CallsBefore(c, item.product, k) < 5)
  {
    hide Performed, NamesObjects, Effects, MirroredAt, CallsBefore;
    var cut := Performed(c, pgstac, item, Effects(MirrorOnly), Some(calls));
    AttemptMirrors(c, pgstac, item, MirrorOnly, Some(calls), k);
    MirrorAttemptFinishes(cut.catalog, pgstac, item);
    AttemptMirrors(cut.catalog, pgstac, item, MirrorOnly, None, k);
  }

  lemma MirrorAttemptFinishes(c: Catalog, pgstac: bool, item: Item)
    requires NamesObjects(item)
    ensures Performed(c, pgstac, item, Effects(MirrorOnly), None).finished
  {
    hide Performed, Registration, MirrorAssets;
    PerformedSplits(c, pgstac, item, Registration(), MirrorAssets(), None);
    RegistrationFinishes(c, pgstac, item);
    MirroringFinishes(Performed(c, pgstac, item, Registration(), None).catalog, pgstac, item);
  }
}
