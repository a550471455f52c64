/** What a finished attempt at a Landsat item leaves behind, by mode, and what makes a scene complete. */
module LandsatOutcomes {
  import opened Wrappers
  import opened Sequences
  import opened LandsatCatalog
  import opened LandsatConvergence
  import opened LandsatMirrors

  /** A scene is complete when it is on record with its four indices and its two prepared assets, and published
      where a pgSTAC catalogue is configured. */
  lemma CompleteMeans(c: Catalog, pgstac: bool, p: Product)
    ensures Complete(c, pgstac, p)
            <==> && p in c.scenes && {(p, Ndvi), (p, Msavi), (p, Ndmi), (p, NdwiGreenNir)} <= c.outputs
                 && (p, Analytic) in c.assets && c.assets[(p, Analytic)].kind == Prepared
                 && (p, MaskAsset) in c.assets && c.assets[(p, MaskAsset)].kind == Prepared
                 && (pgstac ==> c.scenes[p].published)
  {
    assert INDICES[0] == Ndvi && INDICES[1] == Msavi && INDICES[2] == Ndmi && INDICES[3] == NdwiGreenNir;
    assert PREPARED[0] == Analytic && PREPARED[1] == MaskAsset;
  }

  /** An asset counts as mirrored when its record says so and names an object. */
  lemma MirroredMeans(a: Asset)
    ensures IsMirrored(a) <==> a.status == Mirrored && a.path !in {None, Some("")}
  {
  }

  predicate IsSource(k: AssetKey) { k in {Blue, Green, Red, Nir08, Swir16, Swir22, QaPixel, QaRadsat} }

  lemma SourcesAreRequired(k: AssetKey)
    ensures k in REQUIRED <==> IsSource(k)
  {
    var r := REQUIRED;
    assert r[0] == Blue && r[1] == Green && r[2] == Red && r[3] == Nir08;
    assert r[4] == Swir16 && r[5] == Swir22 && r[6] == QaPixel && r[7] == QaRadsat;
  }

  // ---- Mirrors ----

  /** The asset is mirrored under the object and checksum that mirroring the item's asset stores. */
  predicate StoredFrom(c: Catalog, item: Item, k: AssetKey) {
    Holds(c, item.product, MirroredAs(k, item.objects(k).0, Some(item.objects(k).1)))
  }

  lemma StepStores(c: Catalog, pgstac: bool, item: Item, e: Effect, budget: Budget, k: AssetKey)
    requires NamesObjects(item) && Proper(e) && (MirroredAt(c, item.product, k) ==> StoredFrom(c, item, k))
    ensures var d := Step(c, pgstac, item, e, budget).catalog;
            MirroredAt(d, item.product, k) ==> StoredFrom(d, item, k)
  {
    hide LacksBand;
  }

  lemma {:induction false} EffectsStore(c: Catalog, pgstac: bool, item: Item, es: seq<Effect>, budget: Budget,
                                        k: AssetKey)
    requires NamesObjects(item) && forall e | e in es :: Proper(e)
    requires MirroredAt(c, item.product, k) ==> StoredFrom(c, item, k)
    ensures var d := Performed(c, pgstac, item, es, budget).catalog;
            MirroredAt(d, item.product, k) ==> StoredFrom(d, item, k)
    decreases |es|
  {
    hide Step, NamesObjects, Proper, MirroredAt, StoredFrom;
    if |es| > 0 {
      StepStores(c, pgstac, item, es[0], budget, k);
      var first := Step(c, pgstac, item, es[0], budget);
      EffectsStore(first.catalog, pgstac, item, es[1..], first.budget, k);
    }
  }

  // ---- New records ----

  predicate NewOrAbsent(c: Catalog, p: Product, k: AssetKey, a: Asset) { (p, k) in c.assets ==> c.assets[(p, k)] == a }

  /** The record that an effect makes of an asset that had none. */
  predicate Makes(e: Effect, k: AssetKey, a: Asset) {
    && e != RecordMirror(k)
    && (e == RegisterAsset(k) ==> a == Asset(Source, Pending, None, None))
    && (e == StorePrepared(k) ==> a == Asset(Prepared, NotRequired, None, None))
  }

  lemma StepMakes(c: Catalog, pgstac: bool, item: Item, e: Effect, budget: Budget, k: AssetKey, a: Asset)
    requires NewOrAbsent(c, item.product, k, a) && Makes(e, k, a)
    ensures NewOrAbsent(Step(c, pgstac, item, e, budget).catalog, item.product, k, a)
  {
    hide LacksBand;
  }

  lemma {:induction false} EffectsMake(c: Catalog, pgstac: bool, item: Item, es: seq<Effect>, budget: Budget,
                                       k: AssetKey,
                                       a: Asset)
    requires NewOrAbsent(c, item.product, k, a) && forall e | e in es :: Makes(e, k, a)
    ensures NewOrAbsent(Performed(c, pgstac, item, es, budget).catalog, item.product, k, a)
    decreases |es|
  {
    hide Step, NewOrAbsent, Makes;
    if |es| > 0 {
      StepMakes(c, pgstac, item, es[0], budget, k, a);
      var first := Step(c, pgstac, item, es[0], budget);
      EffectsMake(first.catalog, pgstac, item, es[1..], first.budget, k, a);
    }
  }

  /** A first registration leaves each source asset pending and without a mirror. */
  lemma NewSourceRecord(c: Catalog, pgstac: bool, item: Item, budget: Budget, k: AssetKey)
    requires NamesObjects(item) && IsSource(k) && (item.product, k) !in c.assets
    ensures var done := Performed(c, pgstac, item, Effects(MetadataOnly), budget);
            done.finished ==>
              && (item.product, k) in done.catalog.assets
              && done.catalog.assets[(item.product, k)] == Asset(Source, Pending, None, None)
  {
    hide Performed, Registration, NamesObjects, Proper, Makes;
    var a := Asset(Source, Pending, None, None);
    SourcesAreRequired(k);
    ModesAreProper(MetadataOnly);
    forall e | e in Registration() ensures Makes(e, k, a) { RegistrationMakes(e, k, a); }
    EffectsMake(c, pgstac, item, Registration(), budget, k, a);
    RegistersSource(MetadataOnly, k);
    FactsReached(c, pgstac, item, Registration(), budget, RegisterAsset(k), HasAsset(k));
  }

  lemma RegistrationMakes(e: Effect, k: AssetKey, a: Asset)
    requires e in Registration() && a == Asset(Source, Pending, None, None)
    ensures Makes(e, k, a)
  {
    hide Registration;
    RegistrationParts(e);
  }

  /** And a first full attempt leaves the prepared assets, which need no mirror. */
  lemma NewPreparedRecord(c: Catalog, pgstac: bool, item: Item, k: AssetKey)
    requires NamesObjects(item) && k in {Analytic, MaskAsset} && (item.product, k) !in c.assets
    ensures var d := Performed(c, pgstac, item, Effects(FullPipeline), None).catalog;
            (item.product, k) in d.assets && d.assets[(item.product, k)] == Asset(Prepared, NotRequired, None, None)
  {
    hide Performed, Effects, NamesObjects, Makes;
    var a := Asset(Prepared, NotRequired, None, None);
    FullAttemptLeaves(c, pgstac, item);
    ModesAreProper(FullPipeline);
    forall e | e in Effects(FullPipeline) ensures Makes(e, k, a) { ProperMakes(e, k, a); }
    EffectsMake(c, pgstac, item, Effects(FullPipeline), None, k, a);
  }

  lemma ProperMakes(e: Effect, k: AssetKey, a: Asset)
    requires Proper(e) && k in {Analytic, MaskAsset} && a == Asset(Prepared, NotRequired, None, None)
    ensures Makes(e, k, a)
  {
    SourcesAreRequired(k);
  }

  // ---- Outputs ----

  lemma StepOutputs(c: Catalog, pgstac: bool, item: Item, e: Effect, budget: Budget)
    ensures var first := Step(c, pgstac, item, e, budget);
            && c.outputs <= first.catalog.outputs
            && first.catalog.outputs <= c.outputs + if e.StoreIndex? then {(item.product, e.index)} else {}
  {
    hide LacksBand;
  }

  lemma {:induction false} OutputsOf(c: Catalog, pgstac: bool, item: Item, es: seq<Effect>, budget: Budget)
    ensures var d := Performed(c, pgstac, item, es, budget).catalog;
            && c.outputs <= d.outputs
            && forall o | o in d.outputs - c.outputs :: o.0 == item.product && StoreIndex(o.1) in es
    decreases |es|
  {
    hide Step;
    if |es| > 0 {
      StepOutputs(c, pgstac, item, es[0], budget);
      var first := Step(c, pgstac, item, es[0], budget);
      OutputsOf(first.catalog, pgstac, item, es[1..], first.budget);
    }
  }

  lemma NothingAdded<T>(a: set<T>, b: set<T>)
    requires a <= b && forall o | o in b - a :: false
    ensures a == b
  {
    assert b - a == {};
    assert b == a + (b - a);
  }

  lemma RegistrationStoresNothing(e: Effect)
    requires e in Registration() || e in MirrorAssets()
    ensures !e.StoreIndex? && e != Publish
  {
    hide Registration, MirrorAssets;
    if e in Registration() { RegistrationParts(e); }
    if e in MirrorAssets() { MirrorParts(e); }
  }

  // ---- The scene's record ----

  lemma RegisteringFirst(c: Catalog, pgstac: bool, item: Item, es: seq<Effect>, budget: Budget)
    requires |es| > 0 && es[0] == RegisterScene && forall e | e in es[1..] :: KeepsScenes(e)
    ensures var done := Performed(c, pgstac, item, es, budget);
            done.finished ==> done.catalog.scenes == c.scenes[item.product := Scene(false, item.footprint)]
  {
    var first := Step(c, pgstac, item, es[0], budget);
    if first.finished {
      ScenesKept(first.catalog, pgstac, item, es[1..], first.budget);
    }
  }

  /** After an attempt short of processing the scene is on record, unpublished, with its eight source assets, and
      after mirroring each of these has a mirror: its old one, or the one just stored. */
  lemma ShortAttemptLeaves(c: Catalog, pgstac: bool, item: Item, mode: Mode, budget: Budget, k: AssetKey)
    requires NamesObjects(item) && mode != FullPipeline && IsSource(k)
    ensures var done := Performed(c, pgstac, item, Effects(mode), budget);
            var p, d := item.product, done.catalog;
            done.finished ==>
              && d.scenes == c.scenes[p := Scene(false, item.footprint)] && d.outputs == c.outputs && (p, k) in d.assets
              && (mode == MirrorOnly ==> d.assets[(p, k)].status == Mirrored && HasPath(d.assets[(p, k)]))
              && (mode == MirrorOnly && !MirroredAt(c, p, k) ==>
                    && d.assets[(p, k)].path == Some(item.objects(k).0)
                    && d.assets[(p, k)].checksum == Some(item.objects(k).1))
  {
    hide Performed, Registration, MirrorAssets, NamesObjects, Proper;
    var es := Effects(mode);
    SourcesAreRequired(k);
    ModesAreProper(mode);
    forall e | e in es ensures !e.StoreIndex? && e != Publish { RegistrationStoresNothing(e); }
    StartsWithScene(mode);
    RegisteringFirst(c, pgstac, item, es, budget);
    OutputsOf(c, pgstac, item, es, budget);
    NothingAdded(c.outputs, Performed(c, pgstac, item, es, budget).catalog.outputs);
    RegistersSource(mode, k);
    FactsReached(c, pgstac, item, es, budget, RegisterAsset(k), HasAsset(k));
    if mode == MirrorOnly {
      RecordsMirror(k);
      MirroredAfterMirroring(c, pgstac, item, es, budget, k);
      if !MirroredAt(c, item.product, k) {
        EffectsStore(c, pgstac, item, es, budget, k);
      }
    }
  }

  lemma StartsWithScene(mode: Mode)
    requires mode != FullPipeline
    ensures |Effects(mode)| > 0 && Effects(mode)[0] == RegisterScene
    ensures forall e | e in Effects(mode)[1..] :: KeepsScenes(e)
  {
    hide MirrorAssets;
    forall e | e in Effects(mode)[1..] ensures KeepsScenes(e) {
      if e in MirrorAssets() { MirrorParts(e); } else { NotRegisteredTwice(e); }
    }
  }

  lemma NotRegisteredTwice(e: Effect)
    requires e in Registration()[1..]
    ensures KeepsScenes(e)
  {
    AssetParts(e);
  }

  lemma RegistersSource(mode: Mode, k: AssetKey)
    requires k in REQUIRED
    ensures RegisterAsset(k) in Effects(mode)
  {
    MapHas((k: AssetKey) => RegisterAsset(k), REQUIRED, k);
    assert RegisterAsset(k) in RegisterAssets();
  }

  /** A finished full attempt leaves the four indices, the two prepared assets, and nothing else among the
      outputs; the scene is published exactly where there is a catalogue and a footprint. */
  lemma FullAttemptLeaves(c: Catalog, pgstac: bool, item: Item)
    requires NamesObjects(item)
    ensures var done := Performed(c, pgstac, item, Effects(FullPipeline), None);
            var p, d := item.product, done.catalog;
            && done.finished && p in d.scenes && (d.scenes[p].published <==> pgstac && item.footprint)
            && d.outputs == c.outputs + {(p, Ndvi), (p, Msavi), (p, Ndmi), (p, NdwiGreenNir)}
            && (p, Analytic) in d.assets && d.assets[(p, Analytic)].kind == Prepared
            && (p, MaskAsset) in d.assets && d.assets[(p, MaskAsset)].kind == Prepared
  {
    hide Performed, Effects;
    AttemptFinishes(c, pgstac, item);
    PublicationFollows(c, pgstac, item);
    OutputsOf(c, pgstac, item, Effects(FullPipeline), None);
    var d := Performed(c, pgstac, item, Effects(FullPipeline), None).catalog;
    assert PREPARED[0] == Analytic && PREPARED[1] == MaskAsset;
    var p := item.product;
    forall i: Index ensures (p, i) in d.outputs {
      EveryIndex(i);
      assert Holds(d, p, HasOutput(i));
    }
    var four := {(p, Ndvi), (p, Msavi), (p, Ndmi), (p, NdwiGreenNir)};
    forall o | o in d.outputs ensures o in c.outputs + four {
      assert o !in c.outputs ==> o in d.outputs - c.outputs;
      OneOfFour(p, o);
    }
    assert Holds(d, p, IsPrepared(Analytic)) && Holds(d, p, IsPrepared(MaskAsset));
  }

  lemma EveryIndex(i: Index)
    ensures i in INDICES
  {
    assert INDICES[0] == Ndvi && INDICES[1] == Msavi && INDICES[2] == Ndmi && INDICES[3] == NdwiGreenNir;
  }

  lemma OneOfFour(p: Product, o: (Product, Index))
    ensures o.0 == p ==> o in {(p, Ndvi), (p, Msavi), (p, Ndmi), (p, NdwiGreenNir)}
  {
    assert o == (o.0, o.1);
    match o.1 {
      case Ndvi =>
      case Msavi =>
      case Ndmi =>
      case NdwiGreenNir =>
    }
  }
}
