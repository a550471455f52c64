/** The Landsat item loop: what one item can come to, the loop as the service runs it, its
    accounting and its cap on new scenes. */
module LandsatRuns {
  import opened Wrappers
  import opened Sequences
  import opened LandsatCatalog

  datatype Verdict = Skipped | Failed | Processed

  datatype Summary = Summary(searched: nat, accepted: nat, mirrored: nat, processed: nat, skipped: nat, failed: nat,
                             newScenes: nat)

  const EMPTY_SUMMARY := Summary(0, 0, 0, 0, 0, 0, 0)

  /** The settings of a run: whether a pgSTAC catalogue is configured, and the cap. */
  datatype Settings = Settings(pgstac: bool, cap: nat)

  /** One item of the loop; `budget` says how far the outside world lets it get. */
  datatype ItemResult = ItemResult(catalog: Catalog, verdict: Verdict, accepted: bool, newScene: bool, mirrored: nat)

  predicate OverCap(c: Catalog, s: Settings, item: Item, mode: Mode, newScenes: nat) {
    mode != MetadataOnly && item.product !in c.scenes && newScenes >= s.cap
  }

  function AfterEffects(c: Catalog, s: Settings, item: Item, mode: Mode, budget: Budget): ItemResult {
    var isNew := mode != MetadataOnly && item.product !in c.scenes;
    var done := Performed(c, s.pgstac, item, Effects(mode), budget);
    var reached := Performed(c, s.pgstac, item, Effects(MirrorOnly), budget).finished;
    ItemResult(done.catalog,
               if !done.finished then Failed else if mode == FullPipeline then Processed else Skipped,
               true, isNew, if mode != MetadataOnly && reached then |REQUIRED| else 0)
  }

  function ItemStep(c: Catalog, s: Settings, item: Item, mode: Mode, newScenes: nat, budget: Budget): ItemResult {
    if !item.valid then ItemResult(c, Failed, false, false, 0)
    else if Complete(c, s.pgstac, item.product) || OverCap(c, s, item, mode, newScenes)
    then ItemResult(c, Skipped, true, false, 0)
    else AfterEffects(c, s, item, mode, budget)
  }

  function Tally(s: Summary, r: ItemResult): Summary {
    Summary(s.searched + 1, s.accepted + (if r.accepted then 1 else 0), s.mirrored + r.mirrored,
            s.processed + (if r.verdict == Processed then |PREPARED| + |INDICES| else 0),
            s.skipped + (if r.verdict == Skipped then 1 else 0),
            s.failed + (if r.verdict == Failed then 1 else 0),
            s.newScenes + (if r.newScene then 1 else 0))
  }

  function RunNext(state: (Catalog, Summary), s: Settings, item: Item, mode: Mode, budget: Budget): (Catalog, Summary) {
    var r := ItemStep(state.0, s, item, mode, state.1.newScenes, budget);
    (r.catalog, Tally(state.1, r))
  }

  /** The whole loop, by its last item; `budgets` has one entry per item. */
  function RunAll(c: Catalog, s: Settings, items: seq<Item>, mode: Mode, budgets: seq<Budget>): (Catalog, Summary)
    requires |budgets| == |items|
  {
    if |items| == 0 then (c, EMPTY_SUMMARY) else
      var n := |items| - 1;
      RunNext(RunAll(c, s, items[..n], mode, budgets[..n]), s, items[n], mode, budgets[n])
  }

  lemma RunExtends(c: Catalog, s: Settings, items: seq<Item>, mode: Mode, budgets: seq<Budget>, i: nat)
    requires |budgets| == |items| && i < |items|
    ensures RunAll(c, s, items[..i + 1], mode, budgets[..i + 1])
            == RunNext(RunAll(c, s, items[..i], mode, budgets[..i]), s, items[i], mode, budgets[i])
  {
    assert items[..i + 1][..i] == items[..i] && budgets[..i + 1][..i] == budgets[..i];
  }

  // ---- The loop as the service runs it ----

  class LandsatIngestionService {
    const settings: Settings
    var catalog: Catalog
    var budget: Budget

    constructor (settings: Settings, catalog: Catalog)
      ensures this.settings == settings && this.catalog == catalog
    {
      this.settings := settings;
      this.catalog := catalog;
      this.budget := None;
    }

    /** Makes one call, or raises. */
    method Perform(item: Item, e: Effect) returns (ok: bool)
      modifies this`catalog, this`budget
      ensures Step(old(catalog), settings.pgstac, item, e, old(budget)) == Progress(catalog, budget, ok)
    {
      if Skips(catalog, settings.pgstac, item, e) {
        return true;
      }
      if budget == Some(0) || Raises(catalog, item, e) {
        return false;
      }
      catalog := Apply(catalog, item, e);
      budget := Spend(budget);
      ok := true;
    }

    method PerformAll(item: Item, es: seq<Effect>) returns (ok: bool)
      modifies this`catalog, this`budget
      ensures Performed(old(catalog), settings.pgstac, item, es, old(budget)) == Progress(catalog, budget, ok)
    {
      hide Step;
      ok := true;
      var i := 0;
      while i < |es|
        invariant 0 <= i <= |es| && ok
        invariant Performed(old(catalog), settings.pgstac, item, es, old(budget))
                  == Performed(catalog, settings.pgstac, item, es[i..], budget)
      {
        ok := Perform(item, es[i]);
        if !ok {
          return;
        }
        i := i + 1;
      }
    }

    /** `_mirror_assets`: a record that is mirrored already is kept as it is. */
    method MirrorSourceAssets(item: Item) returns (ok: bool)
      modifies this`catalog, this`budget
      ensures Performed(old(catalog), settings.pgstac, item, MirrorAssets(), old(budget))
              == Progress(catalog, budget, ok)
    {
      hide Performed, MirrorAsset;
      ok := true;
      NothingPerformed(catalog, settings.pgstac, item, budget);
      for i := 0 to |REQUIRED|
        invariant ok
        invariant Performed(old(catalog), settings.pgstac, item, FlatMap(MirrorAsset, REQUIRED[..i]), old(budget))
                  == Progress(catalog, budget, true)
      {
        var k := REQUIRED[i];
        assert REQUIRED[..i + 1][..i] == REQUIRED[..i];
        PerformedSplits(old(catalog), settings.pgstac, item, FlatMap(MirrorAsset, REQUIRED[..i]), MirrorAsset(k),
                        old(budget));
        if (item.product, k) in catalog.assets && IsMirrored(catalog.assets[(item.product, k)]) {
          MirroredIsSkipped(catalog, settings.pgstac, item, k, budget);
          continue;
        }
        ok := PerformAll(item, MirrorAsset(k));
        if !ok {
          RestNotPerformed(old(catalog), settings.pgstac, item, i + 1, old(budget));
          return;
        }
      }
      assert REQUIRED[..|REQUIRED|] == REQUIRED;
    }

    /** The body of the loop's try block, from registration on. */
    method AttemptItem(item: Item, mode: Mode) returns (verdict: Verdict, mirrored: nat)
      modifies this`catalog, this`budget
      ensures var r := AfterEffects(old(catalog), settings, item, mode, old(budget));
              catalog == r.catalog && verdict == r.verdict && mirrored == r.mirrored
    {
      hide Performed, Registration, MirrorAssets, ProcessScene;
      PerformedSplits(catalog, settings.pgstac, item, Registration(), MirrorAssets(), budget);
      PerformedSplits(catalog, settings.pgstac, item, Registration() + MirrorAssets(), ProcessScene(), budget);
      mirrored := 0;
      var ok := PerformAll(item, Registration());
      if !ok {
        return Failed, 0;
      }
      if mode == MetadataOnly {
        return Skipped, 0;
      }
      ok := MirrorSourceAssets(item);
      if !ok {
        return Failed, 0;
      }
      mirrored := |REQUIRED|;
      if mode == MirrorOnly {
        return Skipped, mirrored;
      }
      ok := PerformAll(item, ProcessScene());
      verdict := if ok then Processed else Failed;
    }

    /** `_process_items`: every exception is counted and the loop goes on. */
    method ProcessItems(items: seq<Item>, mode: Mode, budgets: seq<Budget>) returns (summary: Summary)
      requires |budgets| == |items|
      modifies this`catalog, this`budget
      ensures (catalog, summary) == RunAll(old(catalog), settings, items, mode, budgets)
    {
      hide Complete, AfterEffects, RunAll;
      summary := EMPTY_SUMMARY;
      NoItems(catalog, settings, mode);
      for i := 0 to |items|
        invariant (catalog, summary) == RunAll(old(catalog), settings, items[..i], mode, budgets[..i])
      {
        RunExtends(old(catalog), settings, items, mode, budgets, i);
        var item := items[i];
        summary := summary.(searched := summary.searched + 1);
        if !item.valid {
          summary := summary.(failed := summary.failed + 1);
          continue;
        }
        summary := summary.(accepted := summary.accepted + 1);
        if Complete(catalog, settings.pgstac, item.product) {
          summary := summary.(skipped := summary.skipped + 1);
          continue;
        }
        if mode != MetadataOnly && item.product !in catalog.scenes {
          if summary.newScenes >= settings.cap {
            summary := summary.(skipped := summary.skipped + 1);
            continue;
          }
          summary := summary.(newScenes := summary.newScenes + 1);
        }
        budget := budgets[i];
        IsNewMeans(catalog, settings, item, mode, budget);
        var verdict, mirrored := AttemptItem(item, mode);
        summary := summary.(
          mirrored := summary.mirrored + mirrored,
          processed := summary.processed + if verdict == Processed then |PREPARED| + |INDICES| else 0,
          skipped := summary.skipped + if verdict == Skipped then 1 else 0,
          failed := summary.failed + if verdict == Failed then 1 else 0);
      }
      assert items[..|items|] == items && budgets[..|budgets|] == budgets;
    }
  }

  lemma NothingPerformed(c: Catalog, pgstac: bool, item: Item, budget: Budget)
    ensures Performed(c, pgstac, item, FlatMap(MirrorAsset, REQUIRED[..0]), budget) == Progress(c, budget, true)
  {
  }

  /** For an asset that is mirrored already no call is made. */
  lemma MirroredIsSkipped(c: Catalog, pgstac: bool, item: Item, k: AssetKey, budget: Budget)
    requires (item.product, k) in c.assets && IsMirrored(c.assets[(item.product, k)])
    ensures Performed(c, pgstac, item, MirrorAsset(k), budget) == Progress(c, budget, true)
  {
    SkippedAll(c, pgstac, item, MirrorAsset(k), budget);
  }

  lemma {:induction false} SkippedAll(c: Catalog, pgstac: bool, item: Item, es: seq<Effect>, budget: Budget)
    requires forall e | e in es :: Skips(c, pgstac, item, e)
    ensures Performed(c, pgstac, item, es, budget) == Progress(c, budget, true)
    decreases |es|
  {
    hide Skips;
    if |es| > 0 {
      assert es[0] in es;
      SkippedAll(c, pgstac, item, es[1..], budget);
    }
  }

  /** An exception in the first `n` assets ends the mirroring. */
  lemma {:induction false} RestNotPerformed(c: Catalog, pgstac: bool, item: Item, n: nat, budget: Budget)
    requires n <= |REQUIRED| && !Performed(c, pgstac, item, FlatMap(MirrorAsset, REQUIRED[..n]), budget).finished
    ensures Performed(c, pgstac, item, MirrorAssets(), budget)
            == Performed(c, pgstac, item, FlatMap(MirrorAsset, REQUIRED[..n]), budget)
    decreases |REQUIRED| - n
  {
    hide Performed, MirrorAsset;
    if n == |REQUIRED| {
      assert REQUIRED[..n] == REQUIRED;
    } else {
      assert REQUIRED[..n + 1][..n] == REQUIRED[..n];
      PerformedSplits(c, pgstac, item, FlatMap(MirrorAsset, REQUIRED[..n]), MirrorAsset(REQUIRED[n]), budget);
      RestNotPerformed(c, pgstac, item, n + 1, budget);
    }
  }

  lemma RunLast(c: Catalog, s: Settings, items: seq<Item>, mode: Mode, budgets: seq<Budget>)
    requires |budgets| == |items| > 0
    ensures var n := |items| - 1;
            RunAll(c, s, items, mode, budgets)
            == RunNext(RunAll(c, s, items[..n], mode, budgets[..n]), s, items[n], mode, budgets[n])
  {
  }

  lemma NoItems(c: Catalog, s: Settings, mode: Mode)
    ensures RunAll(c, s, [], mode, []) == (c, EMPTY_SUMMARY)
  {
  }

  lemma IsNewMeans(c: Catalog, s: Settings, item: Item, mode: Mode, budget: Budget)
    ensures var r := AfterEffects(c, s, item, mode, budget);
            r.accepted && (r.newScene <==> mode != MetadataOnly && item.product !in c.scenes)
  {
  }

  // ---- Accounting and the cap ----

  /** Whatever fails, every item is counted once, and each processed item yields two prepared
      assets and four indices. */
  lemma {:induction false} Accounting(c: Catalog, s: Settings, items: seq<Item>, mode: Mode, budgets: seq<Budget>)
    requires |budgets| == |items|
    ensures var sum := RunAll(c, s, items, mode, budgets).1;
            && sum.searched == |items|
            && sum.searched == sum.skipped + sum.failed + sum.processed / 6
            && sum.processed % 6 == 0 && sum.mirrored % 8 == 0
            && 6 * sum.mirrored >= 8 * sum.processed
            && (mode != FullPipeline ==> sum.processed == 0) && sum.accepted <= sum.searched
  {
    hide RunAll, ItemStep;
    if |items| == 0 {
      NoItems(c, s, mode);
    } else {
      var n := |items| - 1;
      Accounting(c, s, items[..n], mode, budgets[..n]);
      var (before, sum) := RunAll(c, s, items[..n], mode, budgets[..n]);
      RunLast(c, s, items, mode, budgets);
      StepCounts(before, s, items[n], mode, sum.newScenes, budgets[n]);
    }
  }

  lemma StepCounts(c: Catalog, s: Settings, item: Item, mode: Mode, newScenes: nat, budget: Budget)
    ensures var r := ItemStep(c, s, item, mode, newScenes, budget);
            && (r.mirrored == 0 || r.mirrored == 8)
            && (r.verdict == Processed ==> r.mirrored == 8 && mode == FullPipeline)
  {
    hide Performed, Registration, MirrorAssets, ProcessScene, Complete;
    PerformedSplits(c, s.pgstac, item, Registration() + MirrorAssets(), ProcessScene(), budget);
  }

  /** Scenes are only ever added, one per item at most, and the loop counts them before it starts. */
  lemma StepScenes(c: Catalog, s: Settings, item: Item, mode: Mode, newScenes: nat, budget: Budget)
    ensures var r := ItemStep(c, s, item, mode, newScenes, budget);
            && c.scenes.Keys <= r.catalog.scenes.Keys <= c.scenes.Keys + {item.product}
            && (mode != MetadataOnly && item.product !in c.scenes && item.product in r.catalog.scenes ==> r.newScene)
            && (r.newScene ==> newScenes < s.cap)
  {
    hide Performed, Effects, Complete;
    ItemIsLocal(c, s.pgstac, item, Effects(mode), budget);
    ScenesStay(c, s.pgstac, item, Effects(mode), budget);
  }

  lemma {:induction false} ScenesStay(c: Catalog, pgstac: bool, item: Item, es: seq<Effect>, budget: Budget)
    ensures c.scenes.Keys <= Performed(c, pgstac, item, es, budget).catalog.scenes.Keys
    decreases |es|
  {
    hide Step;
    if |es| > 0 {
      var first := Step(c, pgstac, item, es[0], budget);
      StepAddsScenes(c, pgstac, item, es[0], budget);
      ScenesStay(first.catalog, pgstac, item, es[1..], first.budget);
    }
  }

  lemma StepAddsScenes(c: Catalog, pgstac: bool, item: Item, e: Effect, budget: Budget)
    ensures c.scenes.Keys <= Step(c, pgstac, item, e, budget).catalog.scenes.Keys
  {
  }

  /** A run outside metadata mode registers at most the cap of unseen scenes, whatever fails. */
  lemma {:induction false} CapHolds(c: Catalog, s: Settings, items: seq<Item>, mode: Mode, budgets: seq<Budget>)
    requires |budgets| == |items| && mode != MetadataOnly
    ensures var (after, sum) := RunAll(c, s, items, mode, budgets);
            && sum.newScenes <= s.cap && c.scenes.Keys <= after.scenes.Keys
            && |after.scenes.Keys - c.scenes.Keys| <= sum.newScenes
  {
    hide ItemStep, RunAll;
    if |items| == 0 {
      NoItems(c, s, mode);
      assert c.scenes.Keys - c.scenes.Keys == {};
    } else {
      var n := |items| - 1;
      RunLast(c, s, items, mode, budgets);
      CapHolds(c, s, items[..n], mode, budgets[..n]);
      var (before, sum) := RunAll(c, s, items[..n], mode, budgets[..n]);
      var r := ItemStep(before, s, items[n], mode, sum.newScenes, budgets[n]);
      StepScenes(before, s, items[n], mode, sum.newScenes, budgets[n]);
      OneMore(c.scenes.Keys, before.scenes.Keys, r.catalog.scenes.Keys, items[n].product);
    }
  }

  lemma OneMore(start: set<Product>, before: set<Product>, after: set<Product>, p: Product)
    requires start <= before <= after <= before + {p}
    ensures |after - start| == |before - start| + if p in after - before then 1 else 0
  {
    assert after - start == (before - start) + (after - before);
    assert after - before == if p in after - before then {p} else {};
  }
}
