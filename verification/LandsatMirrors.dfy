/** What one attempt does to the mirrors of a Landsat item: which calls it makes, and where a failure
    cuts it off between a download and the record of the mirror. */
module LandsatMirrors {
  import opened Wrappers
  import opened Sequences
  import opened LandsatCatalog
  import opened LandsatConvergence

  predicate MirroredAt(c: Catalog, p: Product, k: AssetKey) { (p, k) in c.assets && IsMirrored(c.assets[(p, k)]) }

  function One(b: bool): nat { if b then 1 else 0 }

  lemma StepMirrors(c: Catalog, pgstac: bool, item: Item, e: Effect, budget: Budget, k: AssetKey)
    requires NamesObjects(item)
    ensures var first := Step(c, pgstac, item, e, budget);
            var made := first.finished && !Skips(c, pgstac, item, e);
            && first.catalog.downloads[(item.product, k)]
               == c.downloads[(item.product, k)] + One(made && e == Download(k))
            && (MirroredAt(first.catalog, item.product, k)
                <==> MirroredAt(c, item.product, k) || (made && e == RecordMirror(k)))
            && (made && MirrorsKey(e) && e.key == k ==> !MirroredAt(c, item.product, k))
  {
    hide LacksBand;
  }

  /** Downloads grow by the download calls made, and an asset is mirrored exactly when it was or its
      mirror was recorded; of a mirrored asset no mirroring call is made at all. */
  lemma {:induction false} TraceMirrors(c: Catalog, pgstac: bool, item: Item, es: seq<Effect>, budget: Budget,
                                        k: AssetKey)
    requires NamesObjects(item)
    ensures var done, trace := Performed(c, pgstac, item, es, budget).catalog, Trace(c, pgstac, item, es, budget);
            && done.downloads[(item.product, k)] == c.downloads[(item.product, k)] + multiset(trace)[Download(k)]
            && (MirroredAt(done, item.product, k) <==> MirroredAt(c, item.product, k) || RecordMirror(k) in trace)
            && (MirroredAt(c, item.product, k) ==> forall e | e in trace :: !(MirrorsKey(e) && e.key == k))
    decreases |es|
  {
    hide Step, Skips, MirroredAt, NamesObjects;
    if |es| > 0 {
      var first := Step(c, pgstac, item, es[0], budget);
      StepMirrors(c, pgstac, item, es[0], budget, k);
      if first.finished {
        TraceMirrors(first.catalog, pgstac, item, es[1..], first.budget, k);
        var rest := Trace(first.catalog, pgstac, item, es[1..], first.budget);
        if !Skips(c, pgstac, item, es[0]) {
          assert multiset([es[0]] + rest) == multiset{es[0]} + multiset(rest);
          assert es[0] in [es[0]] + rest;
        }
      }
    }
  }

  lemma {:induction false} MirroredAfterMirroring(c: Catalog, pgstac: bool, item: Item, es: seq<Effect>,
                                                  budget: Budget, k: AssetKey)
    requires NamesObjects(item) && RecordMirror(k) in es
    ensures var done := Performed(c, pgstac, item, es, budget);
            done.finished ==> MirroredAt(done.catalog, item.product, k)
    decreases |es|
  {
    hide Step, NamesObjects, MirroredAt;
    var first := Step(c, pgstac, item, es[0], budget);
    if first.finished {
      if es[0] == RecordMirror(k) {
        RecordedIsMirrored(c, pgstac, item, budget, k);
        TraceMirrors(first.catalog, pgstac, item, es[1..], first.budget, k);
      } else {
        MirroredAfterMirroring(first.catalog, pgstac, item, es[1..], first.budget, k);
      }
    }
  }

  lemma RecordedIsMirrored(c: Catalog, pgstac: bool, item: Item, budget: Budget, k: AssetKey)
    requires NamesObjects(item)
    ensures var first := Step(c, pgstac, item, RecordMirror(k), budget);
            first.finished ==> MirroredAt(first.catalog, item.product, k)
  {
    hide LacksBand;
  }

  lemma {:induction false} TraceIsPart(c: Catalog, pgstac: bool, item: Item, es: seq<Effect>, budget: Budget)
    ensures multiset(Trace(c, pgstac, item, es, budget)) <= multiset(es)
    decreases |es|
  {
    hide Step, Skips;
    if |es| > 0 {
      var first := Step(c, pgstac, item, es[0], budget);
      TraceIsPart(first.catalog, pgstac, item, es[1..], first.budget);
      assert es == [es[0]] + es[1..];
    }
  }

  lemma StepUnlimited(c: Catalog, pgstac: bool, item: Item, e: Effect)
    ensures Step(c, pgstac, item, e, None).budget == None
  {
    hide Apply, Raises, Skips;
  }

  lemma FirstCall(c: Catalog, pgstac: bool, item: Item, es: seq<Effect>)
    requires |es| > 0
    ensures var first := Step(c, pgstac, item, es[0], None);
            && Performed(c, pgstac, item, es, None)
               == (if first.finished then Performed(first.catalog, pgstac, item, es[1..], None) else first)
            && Trace(c, pgstac, item, es, None)
               == if !first.finished then [] else
                    (if Skips(c, pgstac, item, es[0]) then [] else [es[0]])
                    + Trace(first.catalog, pgstac, item, es[1..], None)
  {
    hide Step, Skips;
    StepUnlimited(c, pgstac, item, es[0]);
  }

  lemma NoCalls(c: Catalog, pgstac: bool, item: Item)
    ensures Performed(c, pgstac, item, [], None) == Progress(c, None, true)
    ensures Trace(c, pgstac, item, [], None) == []
  {
  }

  lemma {:induction false} TraceSplits(c: Catalog, pgstac: bool, item: Item, xs: seq<Effect>, ys: seq<Effect>)
    ensures var first := Performed(c, pgstac, item, xs, None);
            Trace(c, pgstac, item, xs + ys, None)
            == Trace(c, pgstac, item, xs, None)
               + if first.finished then Trace(first.catalog, pgstac, item, ys, None) else []
    decreases |xs|
  {
    hide Step, Skips, Trace, Performed;
    if |xs| == 0 {
      assert xs + ys == ys && xs == [];
      NoCalls(c, pgstac, item);
    } else {
      assert (xs + ys)[1..] == xs[1..] + ys;
      FirstCall(c, pgstac, item, xs);
      FirstCall(c, pgstac, item, xs + ys);
      var first := Step(c, pgstac, item, xs[0], None);
      if first.finished {
        TraceSplits(first.catalog, pgstac, item, xs[1..], ys);
      }
    }
  }

  function Cut<T>(xs: seq<T>, budget: Budget): seq<T> {
    if budget.None? then xs else Take(xs, budget.value)
  }

  /** A budget lets the first calls through and no other ones. */
  lemma {:induction false} TraceIsCut(c: Catalog, pgstac: bool, item: Item, es: seq<Effect>, budget: Budget)
    ensures Trace(c, pgstac, item, es, budget) == Cut(Trace(c, pgstac, item, es, None), budget)
    decreases |es|
  {
    hide Apply, Raises, Skips;
    if |es| > 0 && budget.Some? {
      var first := Step(c, pgstac, item, es[0], budget);
      if first.finished {
        TraceIsCut(first.catalog, pgstac, item, es[1..], first.budget);
      }
    }
  }

  // ---- The calls of an attempt that nothing stops ----

  lemma {:induction false} NoneSkipped(c: Catalog, pgstac: bool, item: Item, es: seq<Effect>)
    requires forall e | e in es :: !MirrorsKey(e) && e != Publish
    requires Performed(c, pgstac, item, es, None).finished
    ensures Trace(c, pgstac, item, es, None) == es
    decreases |es|
  {
    hide Apply, Raises, MirrorsKey;
    if |es| > 0 {
      NoneSkipped(Step(c, pgstac, item, es[0], None).catalog, pgstac, item, es[1..]);
    }
  }

  lemma {:induction false} AllSkipped(c: Catalog, pgstac: bool, item: Item, es: seq<Effect>)
    requires forall e | e in es :: Skips(c, pgstac, item, e)
    ensures Performed(c, pgstac, item, es, None) == Progress(c, None, true) && Trace(c, pgstac, item, es, None) == []
    decreases |es|
  {
    hide Skips;
    if |es| > 0 {
      AllSkipped(c, pgstac, item, es[1..]);
    }
  }

  predicate IsBeforeRecord(e: Effect, k: AssetKey) { MirrorsKey(e) && e.key == k && e != RecordMirror(k) }

  lemma CallIsMade(c: Catalog, pgstac: bool, item: Item, e: Effect, k: AssetKey)
    requires Holds(c, item.product, HasAsset(k)) && !MirroredAt(c, item.product, k) && IsBeforeRecord(e, k)
    ensures var first := Step(c, pgstac, item, e, None);
            && first.finished && first.budget == None && !Skips(c, pgstac, item, e)
            && Holds(first.catalog, item.product, HasAsset(k)) && !MirroredAt(first.catalog, item.product, k)
  {
  }

  lemma {:induction false} AllMade(c: Catalog, pgstac: bool, item: Item, es: seq<Effect>, k: AssetKey)
    requires Holds(c, item.product, HasAsset(k)) && !MirroredAt(c, item.product, k)
    requires forall e | e in es :: IsBeforeRecord(e, k)
    ensures var done := Performed(c, pgstac, item, es, None);
            && done.finished && done.budget == None && Trace(c, pgstac, item, es, None) == es
            && Holds(done.catalog, item.product, HasAsset(k)) && !MirroredAt(done.catalog, item.product, k)
    decreases |es|
  {
    hide Step, Skips, Holds, MirroredAt, IsBeforeRecord;
    if |es| > 0 {
      CallIsMade(c, pgstac, item, es[0], k);
      AllMade(Step(c, pgstac, item, es[0], None).catalog, pgstac, item, es[1..], k);
    }
  }

  lemma RecordIsMade(c: Catalog, pgstac: bool, item: Item, k: AssetKey)
    requires NamesObjects(item) && Holds(c, item.product, HasAsset(k)) && !MirroredAt(c, item.product, k)
    ensures var done := Performed(c, pgstac, item, [RecordMirror(k)], None);
            done.finished && done.budget == None && MirroredAt(done.catalog, item.product, k)
    ensures Trace(c, pgstac, item, [RecordMirror(k)], None) == [RecordMirror(k)]
  {
    assert [RecordMirror(k)][1..] == [];
  }

  /** One asset: no call if it is mirrored, all five if it is not. */
  lemma OneAsset(c: Catalog, pgstac: bool, item: Item, k: AssetKey)
    requires NamesObjects(item) && Holds(c, item.product, HasAsset(k))
    ensures var done := Performed(c, pgstac, item, MirrorAsset(k), None);
            done.finished && done.budget == None && MirroredAt(done.catalog, item.product, k)
    ensures Trace(c, pgstac, item, MirrorAsset(k), None)
            == if MirroredAt(c, item.product, k) then [] else MirrorAsset(k)
  {
    hide Performed, Trace, Holds, NamesObjects;
    if MirroredAt(c, item.product, k) {
      AllSkipped(c, pgstac, item, MirrorAsset(k));
    } else {
      var first := [SignHref(k), Download(k), StoreObject(k), StoreMetadata(k)];
      assert MirrorAsset(k) == first + [RecordMirror(k)];
      AllMade(c, pgstac, item, first, k);
      TraceSplits(c, pgstac, item, first, [RecordMirror(k)]);
      PerformedSplits(c, pgstac, item, first, [RecordMirror(k)], None);
      RecordIsMade(Performed(c, pgstac, item, first, None).catalog, pgstac, item, k);
    }
  }

  /** How many assets of a list have no mirror yet. */
  function Missing(c: Catalog, p: Product, keys: seq<AssetKey>): nat {
    if |keys| == 0 then 0 else
      Missing(c, p, keys[..|keys| - 1]) + One(!MirroredAt(c, p, keys[|keys| - 1]))
  }

  lemma {:induction false} MissingAgrees(c: Catalog, d: Catalog, p: Product, keys: seq<AssetKey>)
    requires forall k | k in keys :: MirroredAt(c, p, k) <==> MirroredAt(d, p, k)
    ensures Missing(c, p, keys) == Missing(d, p, keys)
  {
    hide MirroredAt;
    if |keys| > 0 {
      assert keys[|keys| - 1] in keys;
      MissingAgrees(c, d, p, keys[..|keys| - 1]);
    }
  }

  lemma {:induction false} AssetsTrace(c: Catalog, pgstac: bool, item: Item, keys: seq<AssetKey>)
    requires NamesObjects(item)
    requires forall k | k in keys :: k in REQUIRED && Holds(c, item.product, HasAsset(k))
    requires forall i, j | 0 <= i < j < |keys| :: keys[i] != keys[j]
    ensures Performed(c, pgstac, item, FlatMap(MirrorAsset, keys), None).finished
    ensures |Trace(c, pgstac, item, FlatMap(MirrorAsset, keys), None)| == 5 * Missing(c, item.product, keys)
  {
    hide NamesObjects, Holds, MirroredAt, Performed, Trace, MirrorAsset;
    if |keys| == 0 {
      NoCalls(c, pgstac, item);
    } else {
      var front, last := keys[..|keys| - 1], keys[|keys| - 1];
      var es := FlatMap(MirrorAsset, front);
      assert keys == front + [last];
      AssetsTrace(c, pgstac, item, front);
      forall e | e in es ensures Proper(e) && e != RecordMirror(last) { CallsOf(front, e); }
      var now := Performed(c, pgstac, item, es, None).catalog;
      FactsStay(c, pgstac, item, es, None, item.product, HasAsset(last));
      NotRecorded(c, pgstac, item, es, last);
      TraceSplits(c, pgstac, item, es, MirrorAsset(last));
      PerformedSplits(c, pgstac, item, es, MirrorAsset(last), None);
      UnlimitedStays(c, pgstac, item, es);
      OneAsset(now, pgstac, item, last);
      FiveCalls(last);
    }
  }

  lemma FiveCalls(k: AssetKey)
    ensures |MirrorAsset(k)| == 5
  {
  }

  lemma {:induction false} UnlimitedStays(c: Catalog, pgstac: bool, item: Item, es: seq<Effect>)
    ensures Performed(c, pgstac, item, es, None).budget == None
    decreases |es|
  {
    hide Step;
    if |es| > 0 {
      StepUnlimited(c, pgstac, item, es[0]);
      UnlimitedStays(Step(c, pgstac, item, es[0], None).catalog, pgstac, item, es[1..]);
    }
  }

  lemma CallsOf(keys: seq<AssetKey>, e: Effect)
    requires e in FlatMap(MirrorAsset, keys)
    ensures MirrorsKey(e) && e.key in keys
  {
    hide FlatMap, MirrorAsset;
    FlatMapHas(MirrorAsset, keys, e);
    var k :| k in keys && e in MirrorAsset(k);
    MirrorCalls(k, e);
  }

  lemma NotRecorded(c: Catalog, pgstac: bool, item: Item, es: seq<Effect>, k: AssetKey)
    requires NamesObjects(item) && RecordMirror(k) !in es
    ensures var done := Performed(c, pgstac, item, es, None).catalog;
            MirroredAt(done, item.product, k) <==> MirroredAt(c, item.product, k)
  {
    hide Performed, Trace, NamesObjects, MirroredAt;
    TraceMirrors(c, pgstac, item, es, None, k);
    TraceMembers(c, pgstac, item, es, RecordMirror(k));
  }

  lemma TraceMembers(c: Catalog, pgstac: bool, item: Item, es: seq<Effect>, e: Effect)
    ensures e in Trace(c, pgstac, item, es, None) ==> e in es
  {
    hide Trace;
    var trace := Trace(c, pgstac, item, es, None);
    TraceIsPart(c, pgstac, item, es, None);
    assert e in trace ==> e in multiset(trace);
    assert e in multiset(es) ==> e in es;
  }

  // ---- Where an asset's calls lie ----

  /** The keys of a list before a key. */
  function Before(keys: seq<AssetKey>, k: AssetKey): seq<AssetKey> {
    if |keys| == 0 || keys[0] == k then [] else [keys[0]] + Before(keys[1..], k)
  }

  lemma {:induction false} Around(keys: seq<AssetKey>, k: AssetKey) returns (after: seq<AssetKey>)
    requires k in keys
    ensures keys == Before(keys, k) + [k] + after && k !in Before(keys, k)
    decreases |keys|
  {
    if keys[0] == k {
      after := keys[1..];
    } else {
      after := Around(keys[1..], k);
    }
  }

  lemma {:induction false} FlatMapSplits<A, B>(f: A -> seq<B>, xs: seq<A>, ys: seq<A>)
    ensures FlatMap(f, xs + ys) == FlatMap(f, xs) + FlatMap(f, ys)
  {
    if |ys| == 0 {
      assert xs + ys == xs;
    } else {
      assert (xs + ys)[..|xs + ys| - 1] == xs + ys[..|ys| - 1];
      FlatMapSplits(f, xs, ys[..|ys| - 1]);
    }
  }

  lemma MirrorsAround(xs: seq<AssetKey>, k: AssetKey, ys: seq<AssetKey>)
    ensures FlatMap(MirrorAsset, xs + [k] + ys)
            == FlatMap(MirrorAsset, xs) + MirrorAsset(k) + FlatMap(MirrorAsset, ys)
  {
    hide MirrorAsset;
    FlatMapSplits(MirrorAsset, xs + [k], ys);
    FlatMapSplits(MirrorAsset, xs, [k]);
    assert FlatMap(MirrorAsset, [k]) == MirrorAsset(k) by {
      assert [k][..0] == [];
    }
  }

  /** How many calls an attempt makes before those for an asset: the registration, and five for every
      asset before it that has no mirror yet. */
  function CallsBefore(c: Catalog, p: Product, k: AssetKey): nat {
    |Registration()| + 5 * Missing(c, p, Before(REQUIRED, k))
  }

  lemma EffectsAround(mode: Mode, k: AssetKey) returns (tail: seq<Effect>)
    requires mode != MetadataOnly && k in REQUIRED
    ensures Effects(mode)
            == Registration() + (FlatMap(MirrorAsset, Before(REQUIRED, k)) + (MirrorAsset(k) + tail))
    ensures k !in Before(REQUIRED, k)
    ensures forall i, j | 0 <= i < j < |Before(REQUIRED, k)| :: Before(REQUIRED, k)[i] != Before(REQUIRED, k)[j]
    ensures forall j | j in Before(REQUIRED, k) :: j in REQUIRED
  {
    hide FlatMap, MirrorAsset, Registration, ProcessScene, Before;
    var after := Around(REQUIRED, k);
    var before := Before(REQUIRED, k);
    assert REQUIRED[..|before|] == before;
    MirrorsAround(before, k, after);
    var mirrors := FlatMap(MirrorAsset, after);
    tail := mirrors + if mode == FullPipeline then ProcessScene() else [];
  }

  lemma RegistrationMirrorsNothing(e: Effect)
    requires e in Registration()
    ensures !MirrorsKey(e) && e != Publish
  {
    hide Registration;
    RegistrationParts(e);
  }

  predicate NoCallFor(es: seq<Effect>, k: AssetKey) { forall e | e in es :: !(MirrorsKey(e) && e.key == k) }

  lemma RegistrationTrace(c: Catalog, pgstac: bool, item: Item)
    requires NamesObjects(item)
    ensures Trace(c, pgstac, item, Registration(), None) == Registration()
    ensures forall k :: NoCallFor(Registration(), k)
    ensures var now := Performed(c, pgstac, item, Registration(), None).catalog;
            forall k :: MirroredAt(now, item.product, k) <==> MirroredAt(c, item.product, k)
  {
    hide Registration, Performed, Trace, MirroredAt, NamesObjects;
    forall e | e in Registration() ensures !MirrorsKey(e) && e != Publish { RegistrationMirrorsNothing(e); }
    RegistrationFinishes(c, pgstac, item);
    NoneSkipped(c, pgstac, item, Registration());
    var now := Performed(c, pgstac, item, Registration(), None).catalog;
    forall k ensures MirroredAt(now, item.product, k) <==> MirroredAt(c, item.product, k) {
      assert MirrorsKey(RecordMirror(k));
      NotRecorded(c, pgstac, item, Registration(), k);
    }
  }

  lemma NoCallForAppends(xs: seq<Effect>, ys: seq<Effect>, k: AssetKey)
    requires NoCallFor(xs, k) && NoCallFor(ys, k)
    ensures NoCallFor(xs + ys, k)
  {
  }

  /** What an attempt that nothing stops calls: all five calls for an asset without a mirror, after
      `CallsBefore` other calls, and none for it before or after. */
  lemma FullTrace(c: Catalog, pgstac: bool, item: Item, mode: Mode, k: AssetKey)
    returns (head: seq<Effect>, rest: seq<Effect>)
    requires NamesObjects(item) && mode != MetadataOnly && k in REQUIRED && !MirroredAt(c, item.product, k)
    ensures Trace(c, pgstac, item, Effects(mode), None) == head + MirrorAsset(k) + rest
    ensures |head| == CallsBefore(c, item.product, k) && NoCallFor(head, k) && NoCallFor(rest, k)
  {
    hide Registration, Performed, Trace, MirroredAt, NamesObjects, MirrorAsset, FlatMap, Before, Effects, Holds;
    hide Missing, NoCallFor;
    var keys := Before(REQUIRED, k);
    var others := FlatMap(MirrorAsset, keys);
    var tail := EffectsAround(mode, k);
    RegistrationTrace(c, pgstac, item);
    RegistrationFinishes(c, pgstac, item);
    var c1 := Performed(c, pgstac, item, Registration(), None).catalog;
    TraceSplits(c, pgstac, item, Registration(), others + (MirrorAsset(k) + tail));
    var second := OthersTrace(c1, pgstac, item, keys, k);
    MissingAgrees(c1, c, item.product, keys);
    var c2 := Performed(c1, pgstac, item, others, None).catalog;
    TraceSplits(c1, pgstac, item, others, MirrorAsset(k) + tail);
    OneAsset(c2, pgstac, item, k);
    var c3 := Performed(c2, pgstac, item, MirrorAsset(k), None).catalog;
    TraceSplits(c2, pgstac, item, MirrorAsset(k), tail);
    rest := Trace(c3, pgstac, item, tail, None);
    TraceOfMirrored(c3, pgstac, item, tail, k);
    head := Registration() + second;
    NoCallForAppends(Registration(), second, k);
    Regroup(Registration(), second, MirrorAsset(k), rest);
  }

  lemma Regroup<T>(a: seq<T>, b: seq<T>, c: seq<T>, d: seq<T>)
    ensures a + (b + (c + d)) == a + b + c + d
  {
  }

  lemma TraceOfMirrored(c: Catalog, pgstac: bool, item: Item, es: seq<Effect>, k: AssetKey)
    requires NamesObjects(item) && MirroredAt(c, item.product, k)
    ensures NoCallFor(Trace(c, pgstac, item, es, None), k)
  {
    hide Performed, Trace, MirroredAt, NamesObjects;
    TraceMirrors(c, pgstac, item, es, None, k);
  }

  lemma OthersTrace(c: Catalog, pgstac: bool, item: Item, keys: seq<AssetKey>, k: AssetKey) returns (trace: seq<Effect>)
    requires NamesObjects(item) && k in REQUIRED && k !in keys
    requires forall j | j in REQUIRED :: Holds(c, item.product, HasAsset(j))
    requires forall j | j in keys :: j in REQUIRED
    requires forall i, j | 0 <= i < j < |keys| :: keys[i] != keys[j]
    ensures var es := FlatMap(MirrorAsset, keys);
            var done := Performed(c, pgstac, item, es, None);
            && trace == Trace(c, pgstac, item, es, None) && |trace| == 5 * Missing(c, item.product, keys)
            && NoCallFor(trace, k) && done.finished && Holds(done.catalog, item.product, HasAsset(k))
            && (MirroredAt(done.catalog, item.product, k) <==> MirroredAt(c, item.product, k))
  {
    hide NamesObjects, Holds, MirroredAt, Performed, Trace, MirrorAsset, FlatMap, Missing;
    var es := FlatMap(MirrorAsset, keys);
    trace := Trace(c, pgstac, item, es, None);
    AssetsTrace(c, pgstac, item, keys);
    forall e | e in es ensures Proper(e) && MirrorsKey(e) && e.key != k { CallsOf(keys, e); }
    FactsStay(c, pgstac, item, es, None, item.product, HasAsset(k));
    assert RecordMirror(k) !in es by { assert MirrorsKey(RecordMirror(k)); }
    NotRecorded(c, pgstac, item, es, k);
    forall e | e in trace ensures !(MirrorsKey(e) && e.key == k) { TraceMembers(c, pgstac, item, es, e); }
  }

  // ---- Where an attempt is cut off ----

  /** A budget that reaches the download of an asset that has no mirror. */
  predicate Downloads(c: Catalog, item: Item, mode: Mode, budget: Budget, k: AssetKey) {
    && mode != MetadataOnly && k in REQUIRED && !MirroredAt(c, item.product, k)
    && (budget.Some? ==> CallsBefore(c, item.product, k) + 2 <= budget.value)
  }

  /** A budget that does not reach the record of its mirror. */
  predicate EndsBeforeRecord(c: Catalog, item: Item, budget: Budget, k: AssetKey) {
    budget.Some? && budget.value < CallsBefore(c, item.product, k) + 5
  }

  lemma CutAt(head: seq<Effect>, k: AssetKey, rest: seq<Effect>, budget: Budget)
    requires NoCallFor(head, k) && NoCallFor(rest, k)
    ensures var cut := Cut(head + MirrorAsset(k) + rest, budget);
            && multiset(cut)[Download(k)] == One(budget.Some? ==> |head| + 2 <= budget.value)
            && (RecordMirror(k) in cut <==> (budget.Some? ==> |head| + 5 <= budget.value))
  {
    hide NoCallFor, MirrorAsset;
    FiveCalls(k);
    var all := head + MirrorAsset(k) + rest;
    var n := if budget.Some? && budget.value < |all| then budget.value else |all|;
    CutAtLength(head, k, rest, n);
    assert all[..|all|] == all;
  }

  lemma CutAtLength(head: seq<Effect>, k: AssetKey, rest: seq<Effect>, n: nat)
    requires NoCallFor(head, k) && NoCallFor(rest, k) && n <= |head + MirrorAsset(k) + rest|
    ensures var cut := (head + MirrorAsset(k) + rest)[..n];
            && multiset(cut)[Download(k)] == One(|head| + 2 <= n)
            && (RecordMirror(k) in cut <==> |head| + 5 <= n)
  {
    hide NoCallFor, MirrorAsset, One;
    FiveCalls(k);
    var la := Least(n, |head|);
    var lb := Least(n - la, 5);
    var lc := n - la - lb;
    CutOfThree(head, MirrorAsset(k), rest, n);
    NoneOf(head, la, k);
    NoneOf(rest, lc, k);
    OnlyInMiddle(head[..la], MirrorAsset(k)[..lb], rest[..lc], k);
    CallsCut(lb, k);
  }

  lemma CutOfThree<T>(xs: seq<T>, ys: seq<T>, zs: seq<T>, n: nat)
    requires n <= |xs + ys + zs|
    ensures var a := Least(n, |xs|);
            var b := Least(n - a, |ys|);
            (xs + ys + zs)[..n] == xs[..a] + ys[..b] + zs[..n - a - b]
  {
  }

  lemma OnlyInMiddle(a: seq<Effect>, b: seq<Effect>, c: seq<Effect>, k: AssetKey)
    requires multiset(a)[Download(k)] == multiset(c)[Download(k)] == 0
    requires RecordMirror(k) !in a && RecordMirror(k) !in c
    ensures multiset(a + b + c)[Download(k)] == multiset(b)[Download(k)]
    ensures RecordMirror(k) in a + b + c <==> RecordMirror(k) in b
  {
  }

  lemma CallsCut(n: nat, k: AssetKey)
    requires n <= 5
    ensures |MirrorAsset(k)| == 5
    ensures var b := MirrorAsset(k)[..n];
            multiset(b)[Download(k)] == One(2 <= n) && (RecordMirror(k) in b <==> n == 5)
  {
    var calls := MirrorAsset(k);
    if n == 5 {
      assert calls[..5] == calls;
    } else if 2 <= n {
      assert calls[..n] == [SignHref(k), Download(k)] + calls[2..n];
      assert Download(k) !in calls[2..n];
    } else {
      assert Download(k) !in calls[..n];
    }
  }

  function Least(m: nat, n: nat): nat { if m < n then m else n }

  lemma NoneOf(es: seq<Effect>, n: nat, k: AssetKey)
    requires NoCallFor(es, k) && n <= |es|
    ensures multiset(es[..n])[Download(k)] == 0 && RecordMirror(k) !in es[..n]
  {
    assert Download(k) in multiset(es[..n]) ==> Download(k) in es[..n];
    assert MirrorsKey(Download(k)) && MirrorsKey(RecordMirror(k));
  }

  /** No mode calls for other assets than the source assets, and registration for none at all. */
  lemma NeverCalled(c: Catalog, pgstac: bool, item: Item, mode: Mode, budget: Budget, k: AssetKey)
    requires mode == MetadataOnly || k !in REQUIRED
    ensures NoCallFor(Trace(c, pgstac, item, Effects(mode), budget), k)
  {
    hide Trace, Registration, MirrorAssets, ProcessScene;
    var trace := Trace(c, pgstac, item, Effects(mode), budget);
    TraceIsPart(c, pgstac, item, Effects(mode), budget);
    forall e | e in trace ensures !(MirrorsKey(e) && e.key == k) {
      assert e in multiset(trace);
      assert e in Effects(mode);
      if e in Registration() { RegistrationMirrorsNothing(e); }
      if e in MirrorAssets() { MirrorParts(e); }
      if e in ProcessScene() { ProcessParts(e); }
    }
  }

  /** The exact effect of an attempt on an asset: it downloads the asset when the asset has no mirror
      and the budget reaches the download, and mirrors it when the budget reaches the record too. */
  lemma AttemptMirrors(c: Catalog, pgstac: bool, item: Item, mode: Mode, budget: Budget, k: AssetKey)
    requires NamesObjects(item)
    ensures var p, after := item.product, Performed(c, pgstac, item, Effects(mode), budget).catalog;
            && after.downloads[(p, k)] == c.downloads[(p, k)] + One(Downloads(c, item, mode, budget, k))
            && (MirroredAt(after, p, k)
                <==> || MirroredAt(c, p, k)
                     || (Downloads(c, item, mode, budget, k) && !EndsBeforeRecord(c, item, budget, k)))
  {
    hide Performed, Trace, Effects, NamesObjects, MirroredAt, CallsBefore, MirrorAsset;
    var es, p := Effects(mode), item.product;
    TraceMirrors(c, pgstac, item, es, budget, k);
    TraceIsCut(c, pgstac, item, es, budget);
    if MirroredAt(c, p, k) {
      assert MirrorsKey(Download(k));
    } else if mode == MetadataOnly || k !in REQUIRED {
      NeverCalled(c, pgstac, item, mode, budget, k);
      var trace := Trace(c, pgstac, item, es, budget);
      NoneOf(trace, |trace|, k);
      assert trace[..|trace|] == trace;
    } else {
      var head, rest := FullTrace(c, pgstac, item, mode, k);
      CutAt(head, k, rest, budget);
    }
  }
}
