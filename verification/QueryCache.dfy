/** The field query repository, its expiry, and the cached SAR history statistics built on it.
    Times are integers; each call reads the clock once. */
module QueryCache {
  import opened Wrappers
  import F = FieldStats

  type Stats = F.SarStats

  datatype Record = Record(id: string, scene: Option<string>, geometryHash: Option<string>, index: string,
                           version: Option<string>, expiresAt: Option<int>, createdAt: int, stats: Stats)

  /** What `find_cached` asks for. */
  datatype CacheKey = CacheKey(scene: string, geometryHash: string, index: string, version: string)

  predicate Live(r: Record, now: int) { r.expiresAt.Some? ==> r.expiresAt.value > now }

  predicate Matches(r: Record, k: CacheKey) {
    && r.scene == Some(k.scene) && r.geometryHash == Some(k.geometryHash)
    && r.index == k.index && r.version == Some(k.version)
  }

  /** A dictionary in insertion order: no two records share an id. */
  ghost predicate UniqueIds(qs: seq<Record>) {
    forall i, j | 0 <= i < j < |qs| :: qs[i].id != qs[j].id
  }

  predicate HasId(qs: seq<Record>, id: string) { exists i | 0 <= i < |qs| :: qs[i].id == id }

  function Saved(qs: seq<Record>, r: Record): seq<Record> {
    if |qs| == 0 then [r]
    else if qs[0].id == r.id then [r] + qs[1..]
    else [qs[0]] + Saved(qs[1..], r)
  }

  function Got(qs: seq<Record>, id: string, now: int): Option<Record> {
    if |qs| == 0 then None
    else if qs[0].id == id then (if Live(qs[0], now) then Some(qs[0]) else None)
    else Got(qs[1..], id, now)
  }

  /** The first of the latest created among the live matches. */
  function Cached(qs: seq<Record>, k: CacheKey, now: int): Option<Record> {
    if |qs| == 0 then None else
      var n := |qs| - 1;
      var best := Cached(qs[..n], k, now);
      if Matches(qs[n], k) && Live(qs[n], now) && (best.Some? ==> best.value.createdAt < qs[n].createdAt)
      then Some(qs[n]) else best
  }

  /** Without the first `limit` expired records. */
  function Purged(qs: seq<Record>, limit: nat, now: int): seq<Record> {
    if |qs| == 0 || limit == 0 then qs
    else if Live(qs[0], now) then [qs[0]] + Purged(qs[1..], limit, now)
    else Purged(qs[1..], limit - 1, now)
  }

  /** `InMemoryFieldQueryRepository`, its dictionary kept in insertion order. */
  class InMemoryFieldQueryRepository {
    var queries: seq<Record>

    constructor ()
      ensures queries == []
    {
      queries := [];
    }

    method Save(r: Record)
      modifies this
      ensures queries == Saved(old(queries), r)
    {
      SavedAt(queries, r);
      for i := 0 to |queries|
        invariant queries == old(queries)
        invariant forall k | 0 <= k < i :: queries[k].id != r.id
      {
        if queries[i].id == r.id {
          queries := queries[i := r];
          return;
        }
      }
      queries := queries + [r];
    }

    method Get(id: string, now: int) returns (r: Option<Record>)
      ensures r == Got(queries, id, now)
    {
      for i := 0 to |queries|
        invariant Got(queries, id, now) == Got(queries[i..], id, now)
      {
        if queries[i].id == id {
          return if Live(queries[i], now) then Some(queries[i]) else None;
        }
      }
      r := None;
    }

    method FindCached(k: CacheKey, now: int) returns (r: Option<Record>)
      ensures r == Cached(queries, k, now)
    {
      r := None;
      for i := 0 to |queries|
        invariant r == Cached(queries[..i], k, now)
      {
        assert queries[..i + 1][..i] == queries[..i];
        if Matches(queries[i], k) && Live(queries[i], now) && (r.None? || r.value.createdAt < queries[i].createdAt) {
          r := Some(queries[i]);
        }
      }
      assert queries[..|queries|] == queries;
    }

    method DeleteExpired(limit: nat, now: int) returns (count: nat)
      modifies this
      ensures queries == Purged(old(queries), limit, now)
      ensures count == |old(queries)| - |queries| && count <= limit
    {
      var kept: seq<Record> := [];
      var left: nat := limit;
      count := 0;
      ghost var start := queries;
      var i := 0;
      while i < |queries| && left > 0
        invariant 0 <= i <= |queries| && queries == start && left + count == limit && |kept| + count == i
        invariant Purged(start, limit, now) == kept + Purged(start[i..], left, now)
      {
        if Live(queries[i], now) {
          kept := kept + [queries[i]];
        } else {
          left := left - 1;
          count := count + 1;
        }
        i := i + 1;
      }
      queries := kept + queries[i..];
    }
  }

  lemma TailHasNoId(qs: seq<Record>, id: string)
    requires |qs| > 0 && !HasId(qs, id)
    ensures !HasId(qs[1..], id)
  {
  }

  lemma {:induction false} SavedAt(qs: seq<Record>, r: Record)
    ensures !HasId(qs, r.id) ==> Saved(qs, r) == qs + [r]
    ensures forall i | 0 <= i < |qs| && qs[i].id == r.id && (forall k | 0 <= k < i :: qs[k].id != r.id) ::
              Saved(qs, r) == qs[i := r]
  {
    if |qs| > 0 && qs[0].id != r.id {
      SavedAt(qs[1..], r);
      if !HasId(qs, r.id) {
        TailHasNoId(qs, r.id);
      }
      forall i | 0 <= i < |qs| && qs[i].id == r.id && (forall k | 0 <= k < i :: qs[k].id != r.id)
        ensures Saved(qs, r) == qs[i := r]
      {
        forall k | 0 <= k < i - 1 ensures qs[1..][k].id != r.id {
          assert qs[k + 1].id != r.id;
        }
        assert qs[1..][i - 1].id == r.id;
        assert Saved(qs[1..], r) == qs[1..][i - 1 := r];
        assert [qs[0]] + qs[1..][i - 1 := r] == qs[i := r];
      }
    }
  }

  // ---- What the operations mean ----

  /** A record that a lookup at a time may return. */
  predicate Answers(r: Record, k: CacheKey, now: int) {
    && r.scene == Some(k.scene) && r.geometryHash == Some(k.geometryHash)
    && r.index == k.index && r.version == Some(k.version)
    && (r.expiresAt == None || now < r.expiresAt.value)
  }

  /** The latest created of the records that answer, and the first of several. */
  ghost predicate Latest(qs: seq<Record>, k: CacheKey, now: int, i: nat) {
    && i < |qs| && Answers(qs[i], k, now)
    && forall j | 0 <= j < |qs| && Answers(qs[j], k, now) ::
         qs[j].createdAt <= qs[i].createdAt && (j < i ==> qs[j].createdAt < qs[i].createdAt)
  }

  /** A lookup finds that record, and nothing exactly when no record answers. */
  lemma {:induction false} CachedMeans(qs: seq<Record>, k: CacheKey, now: int)
    ensures Cached(qs, k, now).None? <==> forall r | r in qs :: !Answers(r, k, now)
    ensures Cached(qs, k, now).Some? ==> exists i: nat :: Latest(qs, k, now, i) && qs[i] == Cached(qs, k, now).value
  {
    if |qs| > 0 {
      hide Latest;
      var n := |qs| - 1;
      var front, last := qs[..n], qs[n];
      assert qs == front + [last];
      CachedMeans(front, k, now);
      assert Matches(last, k) && Live(last, now) <==> Answers(last, k, now);
      hide Answers, Matches, Live;
      var best := Cached(front, k, now);
      if best.Some? {
        var i: nat :| Latest(front, k, now, i) && front[i] == best.value;
        LatestExtends(front, last, k, now, i);
      } else if Answers(last, k, now) {
        LatestIsLast(front, last, k, now);
      }
    }
  }

  lemma LatestExtends(front: seq<Record>, last: Record, k: CacheKey, now: int, i: nat)
    requires Latest(front, k, now, i)
    ensures i < |front| && Answers(front[i], k, now)
    ensures var later := Answers(last, k, now) && front[i].createdAt < last.createdAt;
            Latest(front + [last], k, now, if later then |front| else i)
  {
  }

  lemma LatestIsLast(front: seq<Record>, last: Record, k: CacheKey, now: int)
    requires Answers(last, k, now) && forall r | r in front :: !Answers(r, k, now)
    ensures Latest(front + [last], k, now, |front|)
  {
    forall j | 0 <= j < |front| ensures !Answers((front + [last])[j], k, now) {
      assert front[j] in front;
    }
  }

  /** A query is found by its id until it expires. */
  lemma {:induction false} GotMeans(qs: seq<Record>, id: string, now: int, r: Record)
    requires UniqueIds(qs)
    ensures Got(qs, id, now) == Some(r)
            <==> r in qs && r.id == id && (r.expiresAt == None || now < r.expiresAt.value)
  {
    if |qs| > 0 {
      UniqueTail(qs);
      GotMeans(qs[1..], id, now, r);
      if r in qs[1..] {
        var i :| 0 <= i < |qs| - 1 && qs[1..][i] == r;
        assert qs[0].id != qs[i + 1].id;
      }
    }
  }

  lemma UniqueTail(qs: seq<Record>)
    requires UniqueIds(qs) && |qs| > 0
    ensures UniqueIds(qs[1..])
  {
  }

  /** After a save the id has the new record, and every other id what it had. */
  lemma {:induction false} SavedMeans(qs: seq<Record>, r: Record, s: Record)
    requires UniqueIds(qs)
    ensures s in Saved(qs, r) <==> s == r || (s in qs && s.id != r.id)
  {
    if |qs| > 0 {
      UniqueTail(qs);
      SavedMeans(qs[1..], r, s);
      if s in qs[1..] {
        var i :| 0 <= i < |qs| - 1 && qs[1..][i] == s;
        assert qs[0].id != qs[i + 1].id;
      }
    }
  }

  predicate Expired(r: Record, now: int) { r.expiresAt.Some? && r.expiresAt.value <= now }

  /** How many records before position `i` have expired. */
  function ExpiredBefore(qs: seq<Record>, i: nat, now: int): nat {
    if i == 0 || |qs| == 0 then 0 else
      (if Expired(qs[0], now) then 1 else 0) + ExpiredBefore(qs[1..], i - 1, now)
  }

  /** The positions that a deletion keeps, in order. */
  ghost predicate Keeps(kept: seq<nat>, qs: seq<Record>, limit: nat, now: int) {
    && (forall a, b | 0 <= a < b < |kept| :: kept[a] < kept[b])
    && (forall a | 0 <= a < |kept| :: kept[a] < |qs|)
    && forall i: nat | i < |qs| :: i !in kept <==> Expired(qs[i], now) && ExpiredBefore(qs, i, now) < limit
  }

  ghost predicate AreAt(rs: seq<Record>, qs: seq<Record>, kept: seq<nat>) {
    |rs| == |kept| && forall a | 0 <= a < |kept| :: kept[a] < |qs| && rs[a] == qs[kept[a]]
  }

  /** A deletion keeps, in order, every record but the expired ones that fewer than `limit` expired ones come
      before. */
  lemma {:induction false} PurgedMeans(qs: seq<Record>, limit: nat, now: int) returns (kept: seq<nat>)
    ensures Keeps(kept, qs, limit, now) && AreAt(Purged(qs, limit, now), qs, kept)
    decreases |qs|
  {
    if |qs| == 0 || limit == 0 {
      kept := AllKept(qs, limit, now);
    } else {
      var live := Live(qs[0], now);
      var left := if live then limit else limit - 1;
      var rest := PurgedMeans(qs[1..], left, now);
      kept := (if live then [0] else []) + Shifted(rest);
      KeepsStep(rest, qs, limit, now);
    }
  }

  lemma AllKept(qs: seq<Record>, limit: nat, now: int) returns (kept: seq<nat>)
    requires |qs| == 0 || limit == 0
    ensures Keeps(kept, qs, limit, now) && AreAt(qs, qs, kept)
  {
    kept := seq(|qs|, i => i);
    forall i: nat | i < |qs| ensures i in kept {
      assert kept[i] == i;
    }
  }

  function Shifted(ps: seq<nat>): (r: seq<nat>)
    ensures |r| == |ps| && forall a | 0 <= a < |ps| :: r[a] == ps[a] + 1
  {
    seq(|ps|, a requires 0 <= a < |ps| => ps[a] + 1)
  }

  lemma ShiftedHas(ps: seq<nat>, i: nat)
    ensures i + 1 in Shifted(ps) <==> i in ps
    ensures 0 !in Shifted(ps)
  {
    if i in ps {
      var a :| 0 <= a < |ps| && ps[a] == i;
      assert Shifted(ps)[a] == i + 1;
    }
  }

  lemma KeepsStep(rest: seq<nat>, qs: seq<Record>, limit: nat, now: int)
    requires |qs| > 0 && limit > 0
    requires Keeps(rest, qs[1..], if Live(qs[0], now) then limit else limit - 1, now)
    ensures Keeps((if Live(qs[0], now) then [0] else []) + Shifted(rest), qs, limit, now)
  {
    var kept := (if Live(qs[0], now) then [0] else []) + Shifted(rest);
    forall i: nat | i < |qs|
      ensures i !in kept <==> Expired(qs[i], now) && ExpiredBefore(qs, i, now) < limit
    {
      if i == 0 {
        ShiftedHas(rest, 0);
      } else {
        ShiftedHas(rest, i - 1);
        assert qs[1..][i - 1] == qs[i];
      }
    }
  }

  // ---- Expiry cannot be observed ----

  function LiveOnes(qs: seq<Record>, now: int): seq<Record> {
    if |qs| == 0 then [] else
      LiveOnes(qs[..|qs| - 1], now) + if Live(qs[|qs| - 1], now) then [qs[|qs| - 1]] else []
  }

  lemma {:induction false} LiveOnesAppend(xs: seq<Record>, ys: seq<Record>, now: int)
    ensures LiveOnes(xs + ys, now) == LiveOnes(xs, now) + LiveOnes(ys, now)
  {
    if |ys| == 0 {
      assert xs + ys == xs;
    } else {
      assert (xs + ys)[..|xs + ys| - 1] == xs + ys[..|ys| - 1];
      LiveOnesAppend(xs, ys[..|ys| - 1], now);
    }
  }

  lemma LiveOnesOne(r: Record, now: int)
    ensures LiveOnes([r], now) == if Live(r, now) then [r] else []
  {
  }

  lemma {:induction false} PurgeKeepsLive(qs: seq<Record>, limit: nat, now: int)
    ensures LiveOnes(Purged(qs, limit, now), now) == LiveOnes(qs, now)
    decreases |qs|
  {
    if |qs| > 0 && limit > 0 {
      assert qs == [qs[0]] + qs[1..];
      LiveOnesAppend([qs[0]], qs[1..], now);
      LiveOnesOne(qs[0], now);
      if Live(qs[0], now) {
        PurgeKeepsLive(qs[1..], limit, now);
        LiveOnesAppend([qs[0]], Purged(qs[1..], limit, now), now);
      } else {
        PurgeKeepsLive(qs[1..], limit - 1, now);
      }
    }
  }

  /** What is live later is live now. */
  lemma {:induction false} LiveOnesLater(qs: seq<Record>, now: int, later: int)
    requires now <= later
    ensures LiveOnes(LiveOnes(qs, now), later) == LiveOnes(qs, later)
  {
    if |qs| > 0 {
      var front, last := qs[..|qs| - 1], qs[|qs| - 1];
      LiveOnesLater(front, now, later);
      LiveOnesAppend(LiveOnes(front, now), if Live(last, now) then [last] else [], later);
      LiveOnesOne(last, later);
    }
  }

  lemma {:induction false} CachedOfLive(qs: seq<Record>, k: CacheKey, now: int)
    ensures Cached(qs, k, now) == Cached(LiveOnes(qs, now), k, now)
  {
    if |qs| > 0 {
      var front, last := qs[..|qs| - 1], qs[|qs| - 1];
      CachedOfLive(front, k, now);
      var live := LiveOnes(front, now);
      if Live(last, now) {
        assert (live + [last])[..|live|] == live;
      } else {
        assert LiveOnes(qs, now) == live;
      }
    }
  }

  lemma {:induction false} GotAppend(qs: seq<Record>, r: Record, id: string, now: int)
    requires !HasId(qs, r.id)
    ensures Got(qs + [r], id, now)
            == if r.id == id then (if Live(r, now) then Some(r) else None) else Got(qs, id, now)
  {
    if |qs| > 0 {
      assert (qs + [r])[1..] == qs[1..] + [r];
      TailHasNoId(qs, r.id);
      GotAppend(qs[1..], r, id, now);
    }
  }

  lemma LiveHasNoNewId(qs: seq<Record>, now: int, id: string)
    requires !HasId(qs, id)
    ensures !HasId(LiveOnes(qs, now), id)
  {
  }

  lemma {:induction false} GotMissing(qs: seq<Record>, id: string, now: int)
    requires !HasId(qs, id)
    ensures Got(qs, id, now) == None
  {
    if |qs| > 0 {
      assert qs[0].id != id;
      TailHasNoId(qs, id);
      GotMissing(qs[1..], id, now);
    }
  }

  lemma {:induction false} GotOfLive(qs: seq<Record>, id: string, now: int)
    requires UniqueIds(qs)
    ensures Got(qs, id, now) == Got(LiveOnes(qs, now), id, now)
  {
    if |qs| > 0 {
      var front, last := qs[..|qs| - 1], qs[|qs| - 1];
      GotOfLive(front, id, now);
      assert qs == front + [last];
      assert !HasId(front, last.id);
      GotAppend(front, last, id, now);
      LiveHasNoNewId(front, now, last.id);
      if Live(last, now) {
        GotAppend(LiveOnes(front, now), last, id, now);
      } else {
        assert LiveOnes(qs, now) == LiveOnes(front, now);
        if last.id == id {
          GotMissing(LiveOnes(front, now), id, now);
        }
      }
    }
  }

  datatype Op = SaveOp(record: Record) | GetOp(id: string) | FindOp(key: CacheKey) | DeleteOp(limit: nat)

  /** An operation and the time at which it runs. */
  datatype Event = Event(op: Op, now: int)

  function Next(qs: seq<Record>, e: Event): seq<Record> {
    match e.op
    case SaveOp(r) => Saved(qs, r)
    case DeleteOp(limit) => Purged(qs, limit, e.now)
    case GetOp(_) => qs
    case FindOp(_) => qs
  }

  function Answer(qs: seq<Record>, e: Event): Option<Record> {
    match e.op
    case GetOp(id) => Got(qs, id, e.now)
    case FindOp(k) => Cached(qs, k, e.now)
    case SaveOp(_) => None
    case DeleteOp(_) => None
  }

  function Deleteless(qs: seq<Record>, e: Event): seq<Record> { if e.op.DeleteOp? then qs else Next(qs, e) }

  /** The repository after a history of events, with and without its deletions. */
  function With(es: seq<Event>): seq<Record> {
    if |es| == 0 then [] else Next(With(es[..|es| - 1]), es[|es| - 1])
  }

  function Without(es: seq<Event>): seq<Record> {
    if |es| == 0 then [] else Deleteless(Without(es[..|es| - 1]), es[|es| - 1])
  }

  /** The clock does not go back, and every saved query has a new id. */
  ghost predicate Orderly(es: seq<Event>) {
    && (forall i, j | 0 <= i < j < |es| :: es[i].now <= es[j].now)
    && (forall i, j | 0 <= i < j < |es| && es[i].op.SaveOp? && es[j].op.SaveOp? ::
          es[i].op.record.id != es[j].op.record.id)
  }

  lemma OrderlyPrefix(es: seq<Event>, n: nat)
    requires Orderly(es) && n <= |es|
    ensures Orderly(es[..n])
  {
  }

  lemma {:induction false} SavedIds(es: seq<Event>)
    ensures forall r | r in Without(es) :: SaveOp(r) in Ops(es)
    ensures forall r | r in With(es) :: r in Without(es) || SaveOp(r) in Ops(es)
  {
    if |es| > 0 {
      var front, last := es[..|es| - 1], es[|es| - 1];
      SavedIds(front);
      match last.op {
        case SaveOp(r) =>
          SavedMembers(With(front), r);
          SavedMembers(Without(front), r);
        case DeleteOp(limit) => PurgedMembers(With(front), limit, last.now);
        case GetOp(_) =>
        case FindOp(_) =>
      }
    }
  }

  function Ops(es: seq<Event>): set<Op> { set e | e in es :: e.op }

  lemma {:induction false} SavedMembers(qs: seq<Record>, r: Record)
    ensures forall x | x in Saved(qs, r) :: x in qs || x == r
  {
    if |qs| > 0 && qs[0].id != r.id {
      SavedMembers(qs[1..], r);
    }
  }

  lemma {:induction false} PurgedMembers(qs: seq<Record>, limit: nat, now: int)
    ensures forall x | x in Purged(qs, limit, now) :: x in qs
    decreases |qs|
  {
    if |qs| > 0 && limit > 0 {
      PurgedMembers(qs[1..], if Live(qs[0], now) then limit else limit - 1, now);
    }
  }

  lemma NewIdIsNew(es: seq<Event>, r: Record, now: int)
    requires Orderly(es + [Event(SaveOp(r), now)])
    ensures !HasId(With(es), r.id) && !HasId(Without(es), r.id)
  {
    SavedIds(es);
    var all := es + [Event(SaveOp(r), now)];
    forall x | SaveOp(x) in Ops(es) ensures x.id != r.id {
      var e :| e in es && e.op == SaveOp(x);
      var i :| 0 <= i < |es| && es[i] == e;
      assert all[i].op == SaveOp(x) && all[|es|].op == SaveOp(r);
    }
    forall i | 0 <= i < |With(es)| ensures With(es)[i].id != r.id {
      assert With(es)[i] in With(es);
    }
    forall i | 0 <= i < |Without(es)| ensures Without(es)[i].id != r.id {
      assert Without(es)[i] in Without(es);
    }
  }

  lemma {:induction false} PurgeKeepsUnique(qs: seq<Record>, limit: nat, now: int)
    requires UniqueIds(qs)
    ensures UniqueIds(Purged(qs, limit, now))
    decreases |qs|
  {
    if |qs| > 0 && limit > 0 {
      var rest := Purged(qs[1..], if Live(qs[0], now) then limit else limit - 1, now);
      PurgeKeepsUnique(qs[1..], if Live(qs[0], now) then limit else limit - 1, now);
      PurgedMembers(qs[1..], if Live(qs[0], now) then limit else limit - 1, now);
      forall j | 0 <= j < |rest| ensures rest[j].id != qs[0].id {
        assert rest[j] in qs[1..];
        var k :| 0 <= k < |qs[1..]| && qs[1..][k] == rest[j];
        assert qs[k + 1].id != qs[0].id;
      }
    }
  }

  lemma {:induction false} StaysUnique(es: seq<Event>)
    requires Orderly(es)
    ensures UniqueIds(With(es)) && UniqueIds(Without(es))
  {
    hide Purged, Saved;
    if |es| > 0 {
      var front, last := es[..|es| - 1], es[|es| - 1];
      OrderlyPrefix(es, |es| - 1);
      StaysUnique(front);
      match last.op {
        case SaveOp(r) =>
          assert es == front + [Event(SaveOp(r), last.now)];
          NewIdIsNew(front, r, last.now);
          SavedAt(With(front), r);
          SavedAt(Without(front), r);
        case DeleteOp(limit) => PurgeKeepsUnique(With(front), limit, last.now);
        case GetOp(_) =>
        case FindOp(_) =>
      }
    }
  }

  lemma SameLater(xs: seq<Record>, ys: seq<Record>, now: int, later: int)
    requires now <= later && LiveOnes(xs, now) == LiveOnes(ys, now)
    ensures LiveOnes(xs, later) == LiveOnes(ys, later)
  {
    LiveOnesLater(xs, now, later);
    LiveOnesLater(ys, now, later);
  }

  /** With and without its deletions the repository has the same live records, now and later. */
  lemma {:induction false} SameLiveRecords(es: seq<Event>, now: int)
    requires Orderly(es) && (|es| > 0 ==> es[|es| - 1].now <= now)
    ensures LiveOnes(With(es), now) == LiveOnes(Without(es), now)
  {
    hide Purged, Saved, LiveOnes;
    if |es| > 0 {
      var front, last := es[..|es| - 1], es[|es| - 1];
      OrderlyPrefix(es, |es| - 1);
      if |front| > 0 {
        assert front[|front| - 1].now <= last.now;
      }
      SameLiveRecords(front, last.now);
      match last.op {
        case SaveOp(r) =>
          assert es == front + [Event(SaveOp(r), last.now)];
          NewIdIsNew(front, r, last.now);
          SavedAt(With(front), r);
          SavedAt(Without(front), r);
          LiveOnesAppend(With(front), [r], last.now);
          LiveOnesAppend(Without(front), [r], last.now);
        case DeleteOp(limit) => PurgeKeepsLive(With(front), limit, last.now);
        case GetOp(_) =>
        case FindOp(_) =>
      }
      SameLater(With(es), Without(es), last.now, now);
    }
  }

  /** Deleting expired records never changes any present or future answer. */
  lemma DeletionIsInvisible(es: seq<Event>, e: Event)
    requires Orderly(es + [e])
    ensures Answer(With(es), e) == Answer(Without(es), e)
  {
    assert (es + [e])[..|es|] == es;
    OrderlyPrefix(es + [e], |es|);
    assert |es| > 0 ==> (es + [e])[|es| - 1].now <= (es + [e])[|es|].now;
    SameLiveRecords(es, e.now);
    StaysUnique(es);
    match e.op {
      case GetOp(id) =>
        GotOfLive(With(es), id, e.now);
        GotOfLive(Without(es), id, e.now);
      case FindOp(k) =>
        CachedOfLive(With(es), k, e.now);
        CachedOfLive(Without(es), k, e.now);
      case SaveOp(_) =>
      case DeleteOp(_) =>
    }
  }
}
