/** The records one Landsat item leaves behind: the steps of its pipeline as effects on the scene,
    asset and output repositories, any of which may be the last before an exception. */
module LandsatCatalog {
  import opened Wrappers
  import opened Sequences

  datatype Product = Product(name: string)

  datatype AssetKey = Blue | Green | Red | Nir08 | Swir16 | Swir22 | QaPixel | QaRadsat | Analytic | MaskAsset

  const REQUIRED: seq<AssetKey> := [Blue, Green, Red, Nir08, Swir16, Swir22, QaPixel, QaRadsat]
  const PREPARED: seq<AssetKey> := [Analytic, MaskAsset]

  datatype Index = Ndvi | Msavi | Ndmi | NdwiGreenNir

  const INDICES: seq<Index> := [Ndvi, Msavi, Ndmi, NdwiGreenNir]

  datatype AssetKind = Source | Prepared

  datatype MirrorStatus = NotRequired | Pending | Mirrored

  datatype Asset = Asset(kind: AssetKind, status: MirrorStatus, path: Option<string>, checksum: Option<string>)

  datatype Scene = Scene(published: bool, footprint: bool)

  /** What the repositories hold, by product (a scene keeps the id it was first given), and the
      downloads made so far. */
  datatype Catalog = Catalog(scenes: map<Product, Scene>, assets: map<(Product, AssetKey), Asset>,
                             outputs: set<(Product, Index)>, downloads: multiset<(Product, AssetKey)>)

  /** A search result, and what mirroring each of its assets would store. */
  datatype Item = Item(product: Product, valid: bool, footprint: bool, objects: AssetKey -> (string, string))

  datatype Mode = MetadataOnly | MirrorOnly | FullPipeline

  /** The calls an item makes, one by one. Mirroring an asset signs its address, downloads it,
      stores the object, stores the object's metadata, and only then records the mirror. */
  datatype Effect =
    | RegisterScene | StoreManifests | RegisterAsset(key: AssetKey)
    | SignHref(key: AssetKey) | Download(key: AssetKey) | StoreObject(key: AssetKey) | StoreMetadata(key: AssetKey)
    | RecordMirror(key: AssetKey)
    | ReadBands | StorePrepared(key: AssetKey) | StoreIndex(index: Index) | StoreTileLayer(index: Index) | Publish

  /** `record.mirror_status == "mirrored" and record.mirror_object_path`. */
  predicate IsMirrored(a: Asset) { a.status == Mirrored && HasPath(a) }

  predicate HasPath(a: Asset) { a.path.Some? && a.path.value != "" }

  /** `InMemorySceneAssetRepository.upsert`: a record without a mirror path keeps the mirror
      fields of the record it replaces. */
  function Upserted(assets: map<(Product, AssetKey), Asset>, p: Product, k: AssetKey,
                    a: Asset): map<(Product, AssetKey), Asset> {
    assets[(p, k) :=
      if (p, k) in assets && a.path.None? && assets[(p, k)].path.Some?
      then a.(status := assets[(p, k)].status, path := assets[(p, k)].path, checksum := assets[(p, k)].checksum)
      else a]
  }

  predicate MirrorsKey(e: Effect) {
    e.SignHref? || e.Download? || e.StoreObject? || e.StoreMetadata? || e.RecordMirror?
  }

  /** The calls that are not made at all: those for an asset that is mirrored already, and the
      publication of a scene that is not to be published. */
  predicate Skips(c: Catalog, pgstac: bool, item: Item, e: Effect) {
    if MirrorsKey(e) then (item.product, e.key) in c.assets && IsMirrored(c.assets[(item.product, e.key)])
    else e == Publish && item.product in c.scenes && !(pgstac && c.scenes[item.product].footprint)
  }

  /** Some band has no stored source to be read from. */
  predicate LacksBand(c: Catalog, p: Product) {
    exists k | k in REQUIRED :: (p, k) !in c.assets || !HasPath(c.assets[(p, k)])
  }

  /** The exceptions that depend on the records and not on the outside world. */
  predicate Raises(c: Catalog, item: Item, e: Effect) {
    if MirrorsKey(e) then (item.product, e.key) !in c.assets
    else if e == ReadBands then LacksBand(c, item.product)
    else e == Publish && item.product !in c.scenes
  }

  function Apply(c: Catalog, item: Item, e: Effect): Catalog
    requires !Raises(c, item, e)
  {
    var p := item.product;
    match e
    case RegisterScene => c.(scenes := c.scenes[p := Scene(false, item.footprint)])
    case StoreManifests => c
    case RegisterAsset(k) => c.(assets := Upserted(c.assets, p, k, Asset(Source, Pending, None, None)))
    case SignHref(_) => c
    case Download(k) => c.(downloads := c.downloads + multiset{(p, k)})
    case StoreObject(_) => c
    case StoreMetadata(_) => c
    case RecordMirror(k) =>
      c.(assets := c.assets[(p, k) := c.assets[(p, k)].(status := Mirrored, path := Some(item.objects(k).0),
                                                         checksum := Some(item.objects(k).1))])
    case ReadBands => c
    case StorePrepared(k) => c.(assets := Upserted(c.assets, p, k, Asset(Prepared, NotRequired, None, None)))
    case StoreIndex(i) => c.(outputs := c.outputs + {(p, i)})
    case StoreTileLayer(_) => c
    case Publish => c.(scenes := c.scenes[p := c.scenes[p].(published := true)])
  }

  /** How many more operations the outside world will let succeed; None is all of them. */
  type Budget = Option<nat>

  function Spend(b: Budget): Budget
    requires b != Some(0)
  {
    match b
    case None => None
    case Some(n) => Some(n - 1)
  }

  datatype Progress = Progress(catalog: Catalog, budget: Budget, finished: bool)

  /** One call: skipped, cut off, or made. */
  function Step(c: Catalog, pgstac: bool, item: Item, e: Effect, budget: Budget): Progress {
    if Skips(c, pgstac, item, e) then Progress(c, budget, true)
    else if budget == Some(0) || Raises(c, item, e) then Progress(c, budget, false)
    else Progress(Apply(c, item, e), Spend(budget), true)
  }

  /** The calls in order until one raises. */
  function Performed(c: Catalog, pgstac: bool, item: Item, es: seq<Effect>, budget: Budget): Progress
    decreases |es|
  {
    if |es| == 0 then Progress(c, budget, true) else
      var first := Step(c, pgstac, item, es[0], budget);
      if first.finished then Performed(first.catalog, pgstac, item, es[1..], first.budget) else first
  }

  function RegisterAssets(): seq<Effect> { Map((k: AssetKey) => RegisterAsset(k), REQUIRED) }

  function MirrorAsset(k: AssetKey): seq<Effect> {
    [SignHref(k), Download(k), StoreObject(k), StoreMetadata(k), RecordMirror(k)]
  }

  /** `_mirror_assets`. */
  function MirrorAssets(): seq<Effect> { FlatMap(MirrorAsset, REQUIRED) }

  function StorePreparedAssets(): seq<Effect> { Map((k: AssetKey) => StorePrepared(k), PREPARED) }

  function StoreOutput(i: Index): seq<Effect> { [StoreIndex(i), StoreTileLayer(i)] }

  function StoreOutputs(): seq<Effect> { FlatMap(StoreOutput, INDICES) }

  /** `_process_scene`: read the bands, store the prepared assets and the indices, publish. */
  function ProcessScene(): seq<Effect> { [ReadBands] + StorePreparedAssets() + StoreOutputs() + [Publish] }

  function Registration(): seq<Effect> { [RegisterScene, StoreManifests] + RegisterAssets() }

  /** What an item goes through in each mode, once it is neither complete nor over the cap. */
  function Effects(mode: Mode): seq<Effect> {
    match mode
    case MetadataOnly => Registration()
    case MirrorOnly => Registration() + MirrorAssets()
    case FullPipeline => Registration() + MirrorAssets() + ProcessScene()
  }

  /** `_scene_is_complete` of a scene that is on record. */
  predicate Complete(c: Catalog, pgstac: bool, p: Product) {
    && p in c.scenes
    && (forall i | i in INDICES :: (p, i) in c.outputs)
    && (forall k | k in PREPARED :: (p, k) in c.assets && c.assets[(p, k)].kind == Prepared)
    && (pgstac ==> c.scenes[p].published)
  }

  lemma {:induction false} PerformedSplits(c: Catalog, pgstac: bool, item: Item, xs: seq<Effect>, ys: seq<Effect>,
                                           budget: Budget)
    ensures var first := Performed(c, pgstac, item, xs, budget);
            Performed(c, pgstac, item, xs + ys, budget)
            == if first.finished then Performed(first.catalog, pgstac, item, ys, first.budget) else first
    decreases |xs|
  {
    hide Step;
    if |xs| == 0 {
      assert xs + ys == ys;
    } else {
      assert (xs + ys)[1..] == xs[1..] + ys;
      var first := Step(c, pgstac, item, xs[0], budget);
      PerformedSplits(first.catalog, pgstac, item, xs[1..], ys, first.budget);
    }
  }

  lemma PerformedOne(c: Catalog, pgstac: bool, item: Item, e: Effect, budget: Budget)
    ensures Performed(c, pgstac, item, [e], budget) == Step(c, pgstac, item, e, budget)
  {
    hide Step;
    var first := Step(c, pgstac, item, e, budget);
    assert [e][1..] == [];
  }

  /** What an effect can achieve for its product, and no later effect of any run takes away, except
      that registering a scene again withdraws its publication. */
  datatype Fact = OnRecord | HasAsset(key: AssetKey) | PathSet(key: AssetKey) | MirroredAs(key: AssetKey, path: string,
                                      checksum: Option<string>)
                | IsPrepared(key: AssetKey) | HasOutput(index: Index)

  predicate Holds(c: Catalog, p: Product, f: Fact) {
    match f
    case OnRecord => p in c.scenes
    case HasAsset(k) => (p, k) in c.assets
    case PathSet(k) => (p, k) in c.assets && HasPath(c.assets[(p, k)])
    case MirroredAs(k, path, checksum) =>
      (p, k) in c.assets && path != ""
      && c.assets[(p, k)].status == Mirrored && c.assets[(p, k)].path == Some(path)
      && c.assets[(p, k)].checksum == checksum
    case IsPrepared(k) => k in PREPARED && (p, k) in c.assets && c.assets[(p, k)].kind == Prepared
    case HasOutput(i) => (p, i) in c.outputs
  }

  /** The effects that the modes are made of: source assets are registered and mirrored under the
      required keys, prepared ones under theirs. */
  predicate Proper(e: Effect) {
    match e
    case RegisterAsset(k) => k in REQUIRED
    case StorePrepared(k) => k in PREPARED
    case _ => MirrorsKey(e) ==> e.key in REQUIRED
  }

  predicate NamesObjects(item: Item) {
    forall k :: item.objects(k).0 != ""
  }

  lemma StepKeepsFact(c: Catalog, pgstac: bool, item: Item, e: Effect, budget: Budget, p: Product, f: Fact)
    requires Proper(e) && NamesObjects(item) && Holds(c, p, f)
    ensures Holds(Step(c, pgstac, item, e, budget).catalog, p, f)
  {
    hide LacksBand;
  }

  lemma {:induction false} FactsStay(c: Catalog, pgstac: bool, item: Item, es: seq<Effect>, budget: Budget, p: Product,
                                     f: Fact)
    requires (forall e | e in es :: Proper(e)) && NamesObjects(item) && Holds(c, p, f)
    ensures Holds(Performed(c, pgstac, item, es, budget).catalog, p, f)
    decreases |es|
  {
    hide Step, Proper, NamesObjects, Holds;
    if |es| > 0 {
      var first := Step(c, pgstac, item, es[0], budget);
      StepKeepsFact(c, pgstac, item, es[0], budget, p, f);
      FactsStay(first.catalog, pgstac, item, es[1..], first.budget, p, f);
    }
  }

  predicate Establishes(e: Effect, f: Fact) {
    match f
    case OnRecord => e == RegisterScene
    case HasAsset(k) => e == RegisterAsset(k)
    case PathSet(k) => e == RecordMirror(k)
    case IsPrepared(k) => e == StorePrepared(k)
    case HasOutput(i) => e == StoreIndex(i)
    case MirroredAs(_, _, _) => false
  }

  /** A finished step has achieved its fact, or was skipped because it holds. */
  lemma StepEstablishes(c: Catalog, pgstac: bool, item: Item, e: Effect, budget: Budget, f: Fact)
    requires Proper(e) && NamesObjects(item) && Establishes(e, f)
    ensures var first := Step(c, pgstac, item, e, budget);
            first.finished ==> Holds(first.catalog, item.product, f)
  {
    hide LacksBand;
  }

  lemma {:induction false} FactsReached(c: Catalog, pgstac: bool, item: Item, es: seq<Effect>, budget: Budget,
                                        e: Effect, f: Fact)
    requires (forall e | e in es :: Proper(e)) && NamesObjects(item)
    requires e in es && Establishes(e, f)
    ensures var done := Performed(c, pgstac, item, es, budget);
            done.finished ==> Holds(done.catalog, item.product, f)
    decreases |es|
  {
    hide Step, Proper, NamesObjects, Holds, Establishes;
    var first := Step(c, pgstac, item, es[0], budget);
    if first.finished {
      if es[0] == e {
        StepEstablishes(c, pgstac, item, e, budget, f);
        FactsStay(first.catalog, pgstac, item, es[1..], first.budget, item.product, f);
      } else {
        FactsReached(first.catalog, pgstac, item, es[1..], first.budget, e, f);
      }
    }
  }

  /** An item touches the records of its own product only. */
  ghost predicate SameElsewhere(a: Catalog, b: Catalog, p: Product) {
    && (forall q | q != p :: (q in a.scenes <==> q in b.scenes) && (q in a.scenes ==> a.scenes[q] == b.scenes[q]))
    && (forall q, k | q != p :: ((q, k) in a.assets <==> (q, k) in b.assets)
                                && ((q, k) in a.assets ==> a.assets[(q, k)] == b.assets[(q, k)]))
    && (forall q, i | q != p :: (q, i) in a.outputs <==> (q, i) in b.outputs)
    && (forall q, k | q != p :: a.downloads[(q, k)] == b.downloads[(q, k)])
  }

  lemma ApplyIsLocal(c: Catalog, item: Item, e: Effect)
    requires !Raises(c, item, e)
    ensures SameElsewhere(c, Apply(c, item, e), item.product)
  {
  }

  lemma StepIsLocal(c: Catalog, pgstac: bool, item: Item, e: Effect, budget: Budget)
    ensures SameElsewhere(c, Step(c, pgstac, item, e, budget).catalog, item.product)
  {
    SameElsewhereItself(c, item.product);
    hide Apply, Skips, Raises, SameElsewhere;
    if !Raises(c, item, e) {
      ApplyIsLocal(c, item, e);
    }
  }

  lemma SameElsewhereItself(c: Catalog, p: Product)
    ensures SameElsewhere(c, c, p)
  {
  }

  lemma SameElsewhereChains(a: Catalog, b: Catalog, c: Catalog, p: Product)
    requires SameElsewhere(a, b, p) && SameElsewhere(b, c, p)
    ensures SameElsewhere(a, c, p)
  {
  }

  lemma {:induction false} ItemIsLocal(c: Catalog, pgstac: bool, item: Item, es: seq<Effect>, budget: Budget)
    ensures SameElsewhere(c, Performed(c, pgstac, item, es, budget).catalog, item.product)
    decreases |es|
  {
    if |es| == 0 {
      return;
    }
    hide Step, SameElsewhere;
    var first := Step(c, pgstac, item, es[0], budget);
    StepIsLocal(c, pgstac, item, es[0], budget);
    if first.finished {
      ItemIsLocal(first.catalog, pgstac, item, es[1..], first.budget);
      SameElsewhereChains(c, first.catalog, Performed(c, pgstac, item, es, budget).catalog, item.product);
    }
  }

  lemma CompleteElsewhere(a: Catalog, b: Catalog, pgstac: bool, p: Product, q: Product)
    requires SameElsewhere(a, b, p) && q != p
    ensures Complete(a, pgstac, q) <==> Complete(b, pgstac, q)
  {
  }

  /** The facts an effect needs so as not to raise. */
  ghost predicate Ready(c: Catalog, p: Product, e: Effect) {
    if MirrorsKey(e) then Holds(c, p, HasAsset(e.key))
    else if e == ReadBands then forall k | k in REQUIRED :: Holds(c, p, PathSet(k))
    else e == Publish ==> Holds(c, p, OnRecord)
  }

  lemma ReadyStepFinishes(c: Catalog, pgstac: bool, item: Item, e: Effect)
    requires Ready(c, item.product, e)
    ensures var first := Step(c, pgstac, item, e, None); first.finished && first.budget == None
  {
  }

  lemma ReadyStays(c: Catalog, pgstac: bool, item: Item, e: Effect, budget: Budget, later: Effect)
    requires Proper(e) && NamesObjects(item) && Ready(c, item.product, later)
    ensures Ready(Step(c, pgstac, item, e, budget).catalog, item.product, later)
  {
    hide Step, Proper, NamesObjects, Holds;
    var p := item.product;
    if MirrorsKey(later) {
      StepKeepsFact(c, pgstac, item, e, budget, p, HasAsset(later.key));
    } else if later == ReadBands {
      forall k | k in REQUIRED ensures Holds(Step(c, pgstac, item, e, budget).catalog, p, PathSet(k)) {
        StepKeepsFact(c, pgstac, item, e, budget, p, PathSet(k));
      }
    } else if later == Publish {
      StepKeepsFact(c, pgstac, item, e, budget, p, OnRecord);
    }
  }

  lemma {:induction false} ReadyFinishes(c: Catalog, pgstac: bool, item: Item, es: seq<Effect>)
    requires (forall e | e in es :: Proper(e) && Ready(c, item.product, e)) && NamesObjects(item)
    ensures Performed(c, pgstac, item, es, None).finished
    ensures Performed(c, pgstac, item, es, None).budget == None
    decreases |es|
  {
    hide Step, Proper, NamesObjects, Ready;
    if |es| > 0 {
      var first := Step(c, pgstac, item, es[0], None);
      ReadyStepFinishes(c, pgstac, item, es[0]);
      forall e | e in es[1..] ensures Ready(first.catalog, item.product, e) {
        ReadyStays(c, pgstac, item, es[0], None, e);
      }
      ReadyFinishes(first.catalog, pgstac, item, es[1..]);
    }
  }

  // ---- What was actually called ----

  /** The calls made, in order: not the skipped ones, and none after the one that raised. */
  function Trace(c: Catalog, pgstac: bool, item: Item, es: seq<Effect>, budget: Budget): seq<Effect>
    decreases |es|
  {
    if |es| == 0 then [] else
      var first := Step(c, pgstac, item, es[0], budget);
      if !first.finished then [] else
        (if Skips(c, pgstac, item, es[0]) then [] else [es[0]])
        + Trace(first.catalog, pgstac, item, es[1..], first.budget)
  }
}
