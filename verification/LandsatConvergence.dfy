/** What repeated failure-free runs of the Landsat item loop achieve together. */
module LandsatConvergence {
  import opened Wrappers
  import opened Sequences
  import opened LandsatCatalog
  import opened LandsatRuns

  // ---- One attempt ----

  lemma ModesAreProper(mode: Mode)
    ensures forall e | e in Effects(mode) :: Proper(e)
  {
    forall e | e in Registration() ensures Proper(e) { RegistrationParts(e); }
    forall e | e in MirrorAssets() ensures Proper(e) { MirrorParts(e); }
    forall e | e in ProcessScene() ensures Proper(e) { ProcessParts(e); }
  }

  lemma RegistrationParts(e: Effect)
    requires e in Registration()
    ensures e in {RegisterScene, StoreManifests} || (e.RegisterAsset? && e.key in REQUIRED)
  {
  }

  lemma MirrorCalls(k: AssetKey, e: Effect)
    ensures e in MirrorAsset(k) ==> MirrorsKey(e) && e.key == k
  {
  }

  lemma MirrorParts(e: Effect)
    requires e in MirrorAssets()
    ensures MirrorsKey(e) && e.key in REQUIRED
  {
    hide FlatMap, MirrorAsset;
    FlatMapHas(MirrorAsset, REQUIRED, e);
    var k :| k in REQUIRED && e in MirrorAsset(k);
    MirrorCalls(k, e);
  }

  lemma OutputParts(e: Effect)
    requires e in StoreOutputs()
    ensures e.StoreIndex? || e.StoreTileLayer?
  {
    FlatMapHas(StoreOutput, INDICES, e);
    var i :| i in INDICES && e in StoreOutput(i);
  }

  lemma ProcessParts(e: Effect)
    requires e in ProcessScene()
    ensures e in {ReadBands, Publish} || (e.StorePrepared? && e.key in PREPARED) || e.StoreIndex? || e.StoreTileLayer?
  {
    hide StoreOutputs;
    if e in StoreOutputs() {
      OutputParts(e);
    }
  }

  lemma MapHas<T>(make: T -> Effect, keys: seq<T>, k: T)
    requires k in keys
    ensures make(k) in Map(make, keys)
  {
  }

  lemma RecordsMirror(k: AssetKey)
    requires k in REQUIRED
    ensures RecordMirror(k) in MirrorAssets()
  {
    FlatMapHas(MirrorAsset, REQUIRED, RecordMirror(k));
    assert RecordMirror(k) in MirrorAsset(k);
  }

  lemma StoresIndex(i: Index)
    requires i in INDICES
    ensures StoreIndex(i) in ProcessScene()
  {
    FlatMapHas(StoreOutput, INDICES, StoreIndex(i));
    assert StoreIndex(i) in StoreOutput(i);
  }

  /** With nothing failing outside, a full attempt gets through and leaves every output in place. */
  lemma AttemptFinishes(c: Catalog, pgstac: bool, item: Item)
    requires NamesObjects(item)
    ensures var done := Performed(c, pgstac, item, Effects(FullPipeline), None);
            && done.finished && Holds(done.catalog, item.product, OnRecord)
            && (forall i | i in INDICES :: Holds(done.catalog, item.product, HasOutput(i)))
            && (forall k | k in PREPARED :: Holds(done.catalog, item.product, IsPrepared(k)))
  {
    hide Performed, Holds, Map, FlatMap;
    var p := item.product;
    forall e | e in MirrorAssets() ensures Proper(e) { MirrorParts(e); }
    PerformedSplits(c, pgstac, item, Registration(), MirrorAssets(), None);
    PerformedSplits(c, pgstac, item, Registration() + MirrorAssets(), ProcessScene(), None);
    var first := Performed(c, pgstac, item, Registration(), None);
    RegistrationFinishes(c, pgstac, item);
    var second := Performed(first.catalog, pgstac, item, MirrorAssets(), None);
    MirroringFinishes(first.catalog, pgstac, item);
    FactsStay(first.catalog, pgstac, item, MirrorAssets(), None, p, OnRecord);
    ProcessingFinishes(second.catalog, pgstac, item);
  }

  lemma RegistrationFinishes(c: Catalog, pgstac: bool, item: Item)
    requires NamesObjects(item)
    ensures var done := Performed(c, pgstac, item, Registration(), None);
            && done.finished && done.budget == None && Holds(done.catalog, item.product, OnRecord)
            && forall k | k in REQUIRED :: Holds(done.catalog, item.product, HasAsset(k))
  {
    hide Performed, Holds, FlatMap;
    ModesAreProper(MetadataOnly);
    forall e | e in Registration() ensures Ready(c, item.product, e) { RegistrationParts(e); }
    ReadyFinishes(c, pgstac, item, Registration());
    FactsReached(c, pgstac, item, Registration(), None, RegisterScene, OnRecord);
    forall k | k in REQUIRED
      ensures Holds(Performed(c, pgstac, item, Registration(), None).catalog, item.product, HasAsset(k))
    {
      MapHas((k: AssetKey) => RegisterAsset(k), REQUIRED, k);
      FactsReached(c, pgstac, item, Registration(), None, RegisterAsset(k), HasAsset(k));
    }
  }

  lemma MirroringFinishes(c: Catalog, pgstac: bool, item: Item)
    requires NamesObjects(item) && forall k | k in REQUIRED :: Holds(c, item.product, HasAsset(k))
    ensures var done := Performed(c, pgstac, item, MirrorAssets(), None);
            && done.finished && done.budget == None
            && forall k | k in REQUIRED :: Holds(done.catalog, item.product, PathSet(k))
  {
    hide Performed, Holds, FlatMap;
    forall e | e in MirrorAssets() ensures Proper(e) && Ready(c, item.product, e) { MirrorParts(e); }
    ReadyFinishes(c, pgstac, item, MirrorAssets());
    forall k | k in REQUIRED
      ensures Holds(Performed(c, pgstac, item, MirrorAssets(), None).catalog, item.product, PathSet(k))
    {
      RecordsMirror(k);
      FactsReached(c, pgstac, item, MirrorAssets(), None, RecordMirror(k), PathSet(k));
    }
  }

  lemma ProcessingFinishes(c: Catalog, pgstac: bool, item: Item)
    requires NamesObjects(item) && Holds(c, item.product, OnRecord)
    requires forall k | k in REQUIRED :: Holds(c, item.product, PathSet(k))
    ensures var done := Performed(c, pgstac, item, ProcessScene(), None);
            && done.finished && Holds(done.catalog, item.product, OnRecord)
            && (forall i | i in INDICES :: Holds(done.catalog, item.product, HasOutput(i)))
            && (forall k | k in PREPARED :: Holds(done.catalog, item.product, IsPrepared(k)))
  {
    hide Performed, Holds, FlatMap;
    forall e | e in ProcessScene() ensures Proper(e) && Ready(c, item.product, e) { ProcessParts(e); }
    ReadyFinishes(c, pgstac, item, ProcessScene());
    FactsStay(c, pgstac, item, ProcessScene(), None, item.product, OnRecord);
    forall i | i in INDICES
      ensures Holds(Performed(c, pgstac, item, ProcessScene(), None).catalog, item.product, HasOutput(i))
    {
      StoresIndex(i);
      FactsReached(c, pgstac, item, ProcessScene(), None, StoreIndex(i), HasOutput(i));
    }
    forall k | k in PREPARED
      ensures Holds(Performed(c, pgstac, item, ProcessScene(), None).catalog, item.product, IsPrepared(k))
    {
      MapHas((k: AssetKey) => StorePrepared(k), PREPARED, k);
      FactsReached(c, pgstac, item, ProcessScene(), None, StorePrepared(k), IsPrepared(k));
    }
  }

  /** A scene becomes complete by a full attempt exactly when it needs no publication or the item has
      a footprint to publish. */
  lemma AttemptCompletes(c: Catalog, pgstac: bool, item: Item)
    requires NamesObjects(item)
    ensures Performed(c, pgstac, item, Effects(FullPipeline), None).finished
    ensures Complete(Performed(c, pgstac, item, Effects(FullPipeline), None).catalog, pgstac, item.product)
            <==> !pgstac || item.footprint
  {
    hide Performed;
    AttemptFinishes(c, pgstac, item);
    PublicationFollows(c, pgstac, item);
  }

  /** Everything between the registration of the scene and its publication. */
  function Middle(): seq<Effect> {
    [StoreManifests] + RegisterAssets() + MirrorAssets() + [ReadBands] + StorePreparedAssets() + StoreOutputs()
  }

  predicate KeepsScenes(e: Effect) { e != RegisterScene && e != Publish }

  lemma MiddleIsBetween()
    ensures Effects(FullPipeline) == [RegisterScene] + (Middle() + [Publish])
  {
    hide RegisterAssets, MirrorAssets, StorePreparedAssets, StoreOutputs;
  }

  lemma MiddleParts()
    ensures forall e | e in Middle() :: KeepsScenes(e)
  {
    hide RegisterAssets, MirrorAssets, StorePreparedAssets, StoreOutputs;
    forall e | e in Middle() ensures KeepsScenes(e) {
      if e in RegisterAssets() { AssetParts(e); }
      if e in MirrorAssets() { MirrorParts(e); }
      if e in StorePreparedAssets() { AssetParts(e); }
      if e in StoreOutputs() { OutputParts(e); }
    }
  }

  lemma AssetParts(e: Effect)
    ensures e in RegisterAssets() ==> e.RegisterAsset?
    ensures e in StorePreparedAssets() ==> e.StorePrepared?
  {
  }

  lemma StepKeepsScenes(c: Catalog, pgstac: bool, item: Item, e: Effect, budget: Budget)
    requires KeepsScenes(e)
    ensures Step(c, pgstac, item, e, budget).catalog.scenes == c.scenes
  {
  }

  lemma {:induction false} ScenesKept(c: Catalog, pgstac: bool, item: Item, es: seq<Effect>, budget: Budget)
    requires forall e | e in es :: KeepsScenes(e)
    ensures Performed(c, pgstac, item, es, budget).catalog.scenes == c.scenes
    decreases |es|
  {
    hide Step, KeepsScenes;
    if |es| > 0 {
      var first := Step(c, pgstac, item, es[0], budget);
      StepKeepsScenes(c, pgstac, item, es[0], budget);
      ScenesKept(first.catalog, pgstac, item, es[1..], first.budget);
    }
  }

  lemma PublicationFollows(c: Catalog, pgstac: bool, item: Item)
    ensures var after := Performed(c, pgstac, item, Effects(FullPipeline), None);
            after.finished ==>
              item.product in after.catalog.scenes
              && (after.catalog.scenes[item.product].published <==> pgstac && item.footprint)
  {
    hide Middle, Performed;
    MiddleIsBetween();
    MiddleParts();
    var start := Apply(c, item, RegisterScene);
    PerformedSplits(c, pgstac, item, [RegisterScene], Middle() + [Publish], None);
    PerformedOne(c, pgstac, item, RegisterScene, None);
    PerformedSplits(start, pgstac, item, Middle(), [Publish], None);
    ScenesKept(start, pgstac, item, Middle(), None);
    var middle := Performed(start, pgstac, item, Middle(), None);
    PerformedOne(middle.catalog, pgstac, item, Publish, middle.budget);
  }

  // ---- Convergence ----

  /** Items a run can finish: valid, with named mirror objects, and a footprint where one is needed. */
  ghost predicate Sound(s: Settings, items: seq<Item>) {
    forall x | x in items :: x.valid && NamesObjects(x) && (s.pgstac ==> x.footprint)
  }

  ghost function Products(items: seq<Item>): set<Product> { set x | x in items :: x.product }

  ghost function Unseen(c: Catalog, items: seq<Item>): set<Product> { Products(items) - c.scenes.Keys }

  ghost function Incomplete(c: Catalog, s: Settings, items: seq<Item>): set<Product> {
    set p | p in Products(items) && !Complete(c, s.pgstac, p)
  }

  function NoFaults(n: nat): (r: seq<Budget>)
    ensures |r| == n
  {
    seq(n, _ => None)
  }

  function FullRun(c: Catalog, s: Settings, items: seq<Item>): (Catalog, Summary) {
    RunAll(c, s, items, FullPipeline, NoFaults(|items|))
  }

  function Excess(n: nat, cap: nat): nat { if n <= cap then 0 else n - cap }

  /** Where a failure-free full run stands: `start` were on record before it, `seen` are now, and
      `products` have been gone through. */
  ghost predicate Settling(start: set<Product>, seen: set<Product>, products: set<Product>, incomplete: set<Product>,
                           cap: nat, newScenes: int) {
    && start <= seen <= start + products && incomplete == products - seen
    && |products - seen| == Excess(|products - start|, cap)
    && newScenes == |products - start| - |products - seen|
  }

  ghost predicate Converging(c: Catalog, s: Settings, items: seq<Item>, now: Catalog, newScenes: int) {
    Settling(c.scenes.Keys, now.scenes.Keys, Products(items), Incomplete(now, s, items), s.cap, newScenes)
  }

  lemma SettlingDone(start: set<Product>, seen: set<Product>, products: set<Product>, incomplete: set<Product>,
                     cap: nat, newScenes: int, p: Product)
    requires Settling(start, seen, products, incomplete, cap, newScenes) && p in seen
    ensures Settling(start, seen, products + {p}, incomplete, cap, newScenes)
  {
    assert products + {p} - seen == products - seen;
    assert products + {p} - start == products - start;
  }

  lemma SettlingCapped(start: set<Product>, seen: set<Product>, products: set<Product>, incomplete: set<Product>,
                       cap: nat, newScenes: int, p: Product)
    requires Settling(start, seen, products, incomplete, cap, newScenes) && p !in seen && newScenes >= cap
    ensures Settling(start, seen, products + {p}, incomplete + {p}, cap, newScenes)
  {
    assert p !in start;
    if p in products {
      assert products + {p} == products && incomplete + {p} == incomplete;
    } else {
      assert products + {p} - seen == (products - seen) + {p};
      assert products + {p} - start == (products - start) + {p};
      assert |products + {p} - seen| == |products - seen| + 1;
      assert |products + {p} - start| == |products - start| + 1;
    }
  }

  lemma SettlingProcessed(start: set<Product>, seen: set<Product>, products: set<Product>, incomplete: set<Product>,
                          cap: nat, newScenes: int, p: Product)
    requires Settling(start, seen, products, incomplete, cap, newScenes)
    requires (p in products ==> p in incomplete) && (p !in seen ==> newScenes < cap)
    ensures Settling(start, seen + {p}, products + {p}, incomplete - {p}, cap, newScenes + if p in seen then 0 else 1)
  {
    if p in seen {
      assert p !in products && p in start;
      assert seen + {p} == seen && incomplete - {p} == incomplete;
      SettlingDone(start, seen, products, incomplete, cap, newScenes, p);
    } else {
      assert products - seen == {};
      assert p !in products;
      assert products + {p} - (seen + {p}) == {};
      assert products + {p} - start == products - start + {p};
    }
  }

  lemma ProductsGrow(items: seq<Item>)
    requires |items| > 0
    ensures Products(items) == Products(items[..|items| - 1]) + {items[|items| - 1].product}
  {
  }

  lemma CompleteIsOnRecord(c: Catalog, pgstac: bool, p: Product)
    requires Complete(c, pgstac, p)
    ensures p in c.scenes
  {
  }

  lemma IncompleteGrows(c: Catalog, s: Settings, items: seq<Item>)
    requires |items| > 0
    ensures var front, p := items[..|items| - 1], items[|items| - 1].product;
            Incomplete(c, s, items)
            == if Complete(c, s.pgstac, p) then Incomplete(c, s, front) else Incomplete(c, s, front) + {p}
  {
  }

  lemma IncompleteShrinks(now: Catalog, next: Catalog, s: Settings, items: seq<Item>)
    requires |items| > 0
    requires var p := items[|items| - 1].product;
             Complete(next, s.pgstac, p) && SameElsewhere(now, next, p)
    ensures Incomplete(next, s, items) == Incomplete(now, s, items[..|items| - 1]) - {items[|items| - 1].product}
  {
    hide Complete, Products, SameElsewhere;
    ProductsGrow(items);
    var p := items[|items| - 1].product;
    forall q | q != p ensures Complete(now, s.pgstac, q) <==> Complete(next, s.pgstac, q) {
      CompleteElsewhere(now, next, s.pgstac, p, q);
    }
  }

  lemma MissingHere(c: Catalog, s: Settings, items: seq<Item>, p: Product)
    requires !Complete(c, s.pgstac, p)
    ensures p in Products(items) ==> p in Incomplete(c, s, items)
  {
  }

  lemma SceneAdded(now: Catalog, next: Catalog, p: Product)
    requires SameElsewhere(now, next, p) && p in next.scenes
    ensures next.scenes.Keys == now.scenes.Keys + {p}
  {
  }

  lemma SoundLast(s: Settings, items: seq<Item>)
    requires |items| > 0 && Sound(s, items)
    ensures var x := items[|items| - 1]; x.valid && NamesObjects(x) && (s.pgstac ==> x.footprint)
    ensures Sound(s, items[..|items| - 1])
  {
  }

  /** An attempt puts the last item's scene on record and takes it off the incomplete ones. */
  lemma AttemptSettles(now: Catalog, s: Settings, items: seq<Item>)
    requires |items| > 0 && NamesObjects(items[|items| - 1]) && (s.pgstac ==> items[|items| - 1].footprint)
    ensures var x := items[|items| - 1];
            var next := Performed(now, s.pgstac, x, Effects(FullPipeline), None);
            && next.finished && next.catalog.scenes.Keys == now.scenes.Keys + {x.product}
            && Incomplete(next.catalog, s, items) == Incomplete(now, s, items[..|items| - 1]) - {x.product}
  {
    hide Complete, Performed, Effects, SameElsewhere, Incomplete, NamesObjects;
    var x := items[|items| - 1];
    var next := Performed(now, s.pgstac, x, Effects(FullPipeline), None).catalog;
    AttemptCompletes(now, s.pgstac, x);
    ItemIsLocal(now, s.pgstac, x, Effects(FullPipeline), None);
    CompleteIsOnRecord(next, s.pgstac, x.product);
    SceneAdded(now, next, x.product);
    IncompleteShrinks(now, next, s, items);
  }

  /** The last item was complete already: nothing changes. */
  lemma DoneSettles(c: Catalog, s: Settings, items: seq<Item>, now: Catalog, newScenes: nat)
    requires |items| > 0 && Converging(c, s, items[..|items| - 1], now, newScenes)
    ensures Complete(now, s.pgstac, items[|items| - 1].product) ==> Converging(c, s, items, now, newScenes)
  {
    hide Complete, Products, Incomplete, Settling;
    var front, p := items[..|items| - 1], items[|items| - 1].product;
    if Complete(now, s.pgstac, p) {
      ProductsGrow(items);
      CompleteIsOnRecord(now, s.pgstac, p);
      IncompleteGrows(now, s, items);
      SettlingDone(c.scenes.Keys, now.scenes.Keys, Products(front), Incomplete(now, s, front), s.cap, newScenes, p);
      assert Settling(c.scenes.Keys, now.scenes.Keys, Products(items), Incomplete(now, s, items), s.cap, newScenes);
    }
  }

  /** The cap was reached before an unseen item: it stays unseen. */
  lemma CappedSettles(c: Catalog, s: Settings, items: seq<Item>, now: Catalog, newScenes: nat)
    requires |items| > 0 && Converging(c, s, items[..|items| - 1], now, newScenes)
    requires items[|items| - 1].product !in now.scenes && newScenes >= s.cap
    requires !Complete(now, s.pgstac, items[|items| - 1].product)
    ensures Converging(c, s, items, now, newScenes)
  {
    hide Complete, Products, Incomplete, Settling;
    var front, p := items[..|items| - 1], items[|items| - 1].product;
    ProductsGrow(items);
    IncompleteGrows(now, s, items);
    SettlingCapped(c.scenes.Keys, now.scenes.Keys, Products(front), Incomplete(now, s, front), s.cap, newScenes, p);
    assert Settling(c.scenes.Keys, now.scenes.Keys, Products(items), Incomplete(now, s, items), s.cap, newScenes);
  }

  /** The item was processed: its scene is on record and no longer incomplete. */
  lemma ProcessedSettles(c: Catalog, s: Settings, items: seq<Item>, now: Catalog, newScenes: nat, next: Catalog,
                         after: int)
    requires |items| > 0 && Converging(c, s, items[..|items| - 1], now, newScenes)
    requires next.scenes.Keys == now.scenes.Keys + {items[|items| - 1].product}
    requires Incomplete(next, s, items) == Incomplete(now, s, items[..|items| - 1]) - {items[|items| - 1].product}
    requires !Complete(now, s.pgstac, items[|items| - 1].product)
    requires items[|items| - 1].product !in now.scenes ==> newScenes < s.cap
    requires after == newScenes + if items[|items| - 1].product in now.scenes then 0 else 1
    ensures Converging(c, s, items, next, after)
  {
    hide Complete, Products, Incomplete, Settling;
    var front, p := items[..|items| - 1], items[|items| - 1].product;
    ProductsGrow(items);
    MissingHere(now, s, front, p);
    SettlingProcessed(c.scenes.Keys, now.scenes.Keys, Products(front), Incomplete(now, s, front), s.cap, newScenes, p);
    assert Settling(c.scenes.Keys, next.scenes.Keys, Products(items), Incomplete(next, s, items), s.cap, after);
  }

  /** One more item keeps the run on course, whatever branch the loop takes. */
  lemma StepSettles(c: Catalog, s: Settings, items: seq<Item>, now: Catalog, newScenes: nat, r: ItemResult)
    requires |items| > 0 && Sound(s, items) && Converging(c, s, items[..|items| - 1], now, newScenes)
    requires r == ItemStep(now, s, items[|items| - 1], FullPipeline, newScenes, None)
    ensures Converging(c, s, items, r.catalog, newScenes + if r.newScene then 1 else 0)
  {
    hide Complete, Performed, Effects, Incomplete, Sound, NamesObjects, Converging;
    SoundLast(s, items);
    var x := items[|items| - 1];
    if Complete(now, s.pgstac, x.product) {
      DoneSettles(c, s, items, now, newScenes);
    } else if OverCap(now, s, x, FullPipeline, newScenes) {
      CappedSettles(c, s, items, now, newScenes);
    } else {
      AttemptSettles(now, s, items);
      ProcessedSettles(c, s, items, now, newScenes, r.catalog, newScenes + if r.newScene then 1 else 0);
    }
  }

  /** After one failure-free full run every scene that has been seen is complete, and of the unseen
      ones all but the cap remain. */
  lemma {:induction false} RunConverges(c: Catalog, s: Settings, items: seq<Item>)
    requires Sound(s, items)
    ensures Converging(c, s, items, FullRun(c, s, items).0, FullRun(c, s, items).1.newScenes)
  {
    hide ItemStep, RunAll, Converging, Sound;
    if |items| == 0 {
      NoItems(c, s, FullPipeline);
      ConvergingStart(c, s, items);
    } else {
      var n := |items| - 1;
      SoundLast(s, items);
      RunConverges(c, s, items[..n]);
      RunLast(c, s, items, FullPipeline, NoFaults(|items|));
      assert NoFaults(|items|)[..n] == NoFaults(n);
      var (now, sum) := FullRun(c, s, items[..n]);
      StepSettles(c, s, items, now, sum.newScenes, ItemStep(now, s, items[n], FullPipeline, sum.newScenes, None));
    }
  }

  lemma ConvergingStart(c: Catalog, s: Settings, items: seq<Item>)
    requires items == []
    ensures Converging(c, s, items, c, 0)
  {
  }

  lemma RunLeavesExcess(c: Catalog, s: Settings, items: seq<Item>)
    requires Sound(s, items)
    ensures var after := FullRun(c, s, items).0;
            && Incomplete(after, s, items) == Unseen(after, items)
            && |Incomplete(after, s, items)| == Excess(|Unseen(c, items)|, s.cap)
  {
    hide FullRun, Incomplete, Products, Sound;
    RunConverges(c, s, items);
  }

  function Runs(c: Catalog, s: Settings, items: seq<Item>, k: nat): Catalog {
    if k == 0 then c else FullRun(Runs(c, s, items, k - 1), s, items).0
  }

  /** After k runs, k at least one, exactly the unseen scenes beyond k times the cap are incomplete. */
  lemma {:induction false} RunsConverge(c: Catalog, s: Settings, items: seq<Item>, k: nat)
    requires Sound(s, items) && k >= 1
    ensures Incomplete(Runs(c, s, items, k), s, items) == Unseen(Runs(c, s, items, k), items)
    ensures |Incomplete(Runs(c, s, items, k), s, items)| == Excess(|Unseen(c, items)|, k * s.cap)
  {
    hide FullRun, Incomplete, Unseen, Sound;
    RunLeavesExcess(Runs(c, s, items, k - 1), s, items);
    if k > 1 {
      RunsConverge(c, s, items, k - 1);
      assert k * s.cap == (k - 1) * s.cap + s.cap;
    }
  }

  /** Each run leaves strictly fewer incomplete scenes until there is none. */
  lemma RunMakesProgress(c: Catalog, s: Settings, items: seq<Item>)
    requires Sound(s, items) && s.cap > 0 && |Incomplete(c, s, items)| > 0
    ensures |Incomplete(FullRun(c, s, items).0, s, items)| < |Incomplete(c, s, items)|
  {
    hide FullRun, Incomplete, Unseen, Sound;
    RunLeavesExcess(c, s, items);
    UnseenIsIncomplete(c, s, items);
  }

  lemma UnseenIsIncomplete(c: Catalog, s: Settings, items: seq<Item>)
    ensures |Unseen(c, items)| <= |Incomplete(c, s, items)|
  {
    hide Complete, Products;
    var unseen, incomplete := Unseen(c, items), Incomplete(c, s, items);
    forall p | p in unseen ensures p in incomplete {
      if Complete(c, s.pgstac, p) { CompleteIsOnRecord(c, s.pgstac, p); }
    }
    Subset(unseen, incomplete);
  }

  lemma Subset<T>(a: set<T>, b: set<T>)
    requires a <= b
    ensures |a| <= |b|
  {
    assert b == a + (b - a);
  }

  /** Once every scene is complete a run changes nothing, whatever its mode and its failures. */
  lemma {:induction false} CompleteIsStable(c: Catalog, s: Settings, items: seq<Item>, mode: Mode, budgets: seq<Budget>)
    requires |budgets| == |items| && Incomplete(c, s, items) == {}
    ensures RunAll(c, s, items, mode, budgets).0 == c
  {
    hide Complete, RunAll, AfterEffects;
    if |items| == 0 {
      NoItems(c, s, mode);
    } else {
      var n := |items| - 1;
      ProductsGrow(items);
      assert Incomplete(c, s, items[..n]) <= Incomplete(c, s, items);
      CompleteIsStable(c, s, items[..n], mode, budgets[..n]);
      RunLast(c, s, items, mode, budgets);
      assert items[n].product !in Incomplete(c, s, items);
    }
  }
}
