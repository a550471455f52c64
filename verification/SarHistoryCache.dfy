/** The cached field statistics of earlier SAR scenes: a lookup returns what a fresh computation
    would, whatever has been saved, expired and deleted before. */
module SarHistoryCache {
  import opened Wrappers
  import opened QueryCache

  const HISTORY_INDEX := "sar_backscatter:history"
  const STATS_PREFIX := "sar-field-stats-v1:"
  const EVIDENCE_VERSION := "sar-field-evidence-v1"

  /** `",".join(names)`. */
  function Joined(names: seq<string>): string {
    if |names| == 0 then "" else if |names| == 1 then names[0] else names[0] + "," + Joined(names[1..])
  }

  /** The analysis version of a history record; `coverage` is the formatted minimum coverage. */
  function VersionOf(polarizations: seq<string>, coverage: string): string {
    STATS_PREFIX + (Joined(polarizations) + ":" + ("coverage-" + coverage))
  }

  /** Polarization names are not empty and hold neither separator. */
  predicate Names(polarizations: seq<string>) {
    forall i | 0 <= i < |polarizations| :: Plain(polarizations[i]) && |polarizations[i]| > 0
  }

  predicate Plain(s: string) { forall k | 0 <= k < |s| :: s[k] != ',' && s[k] != ':' }

  lemma NamesMean(polarizations: seq<string>)
    ensures Names(polarizations)
            <==> forall p | p in polarizations :: p != "" && ',' !in p && ':' !in p
  {
    hide Plain;
    forall i | 0 <= i < |polarizations|
      ensures Plain(polarizations[i]) <==> ',' !in polarizations[i] && ':' !in polarizations[i]
    {
      PlainMeans(polarizations[i]);
    }
    if Names(polarizations) {
      forall p | p in polarizations ensures p != "" && ',' !in p && ':' !in p {
        var i :| 0 <= i < |polarizations| && polarizations[i] == p;
      }
    }
  }

  lemma PlainMeans(s: string)
    ensures Plain(s) <==> ',' !in s && ':' !in s
  {
  }

  /** Where the first separator stands. */
  function SeparatorAt(s: string): nat {
    if |s| == 0 || s[0] == ',' || s[0] == ':' then 0 else 1 + SeparatorAt(s[1..])
  }

  lemma {:induction false} SeparatorAfter(a: string, d: char, u: string)
    requires Plain(a) && (d == ',' || d == ':')
    ensures SeparatorAt(a + [d] + u) == |a|
  {
    if |a| > 0 {
      assert (a + [d] + u)[1..] == a[1..] + [d] + u;
      SeparatorAfter(a[1..], d, u);
    }
  }

  lemma SplitsOneWay(a: string, d: char, u: string, b: string, e: char, v: string)
    requires Plain(a) && Plain(b) && (d == ',' || d == ':') && (e == ',' || e == ':')
    requires a + [d] + u == b + [e] + v
    ensures a == b && d == e && u == v
  {
    var s := a + [d] + u;
    SeparatorAfter(a, d, u);
    SeparatorAfter(b, e, v);
    assert a == s[..|a|] && b == s[..|b|];
    assert d == s[|a|] && e == s[|b|];
    assert u == s[|a| + 1..] && v == s[|b| + 1..];
  }

  lemma Regroup(a: string, b: string, c: string, d: string, e: string)
    ensures a + b + c + d + e == a + b + (c + d + e)
  {
  }

  /** The names, one separator after the first of them, and what follows it. */
  function Tail(p: seq<string>, x: string): string
    requires |p| > 0
  {
    if |p| == 1 then x else Joined(p[1..]) + ":" + x
  }

  function Separator(p: seq<string>): char { if |p| == 1 then ':' else ',' }

  lemma FirstName(p: seq<string>, x: string)
    requires |p| > 0
    ensures Joined(p) + ":" + x == p[0] + [Separator(p)] + Tail(p, x)
  {
    if |p| > 1 {
      Regroup(p[0], ",", Joined(p[1..]), ":", x);
    }
  }

  lemma EmptyStartsWithSeparator(p: seq<string>, x: string)
    requires Names(p)
    ensures |p| == 0 <==> SeparatorAt(Joined(p) + ":" + x) == 0
  {
  }

  /** The list of names can be read back from the version, whatever follows it. */
  lemma {:induction false} JoinedReadsBack(p: seq<string>, x: string, q: seq<string>, y: string)
    requires Names(p) && Names(q) && Joined(p) + ":" + x == Joined(q) + ":" + y
    ensures p == q
    decreases |p|
  {
    hide Joined;
    EmptyStartsWithSeparator(p, x);
    EmptyStartsWithSeparator(q, y);
    if |p| > 0 {
      FirstName(p, x);
      FirstName(q, y);
      SplitsOneWay(p[0], Separator(p), Tail(p, x), q[0], Separator(q), Tail(q, y));
      assert p == [p[0]] + p[1..] && q == [q[0]] + q[1..];
      if |p| > 1 {
        JoinedReadsBack(p[1..], x, q[1..], y);
      }
    }
  }

  lemma VersionReadsBack(p: seq<string>, x: string, q: seq<string>, y: string)
    requires Names(p) && Names(q) && VersionOf(p, x) == VersionOf(q, y)
    ensures p == q
  {
    var n := |STATS_PREFIX|;
    assert VersionOf(p, x)[n..] == Joined(p) + ":" + ("coverage-" + x);
    assert VersionOf(q, y)[n..] == Joined(q) + ":" + ("coverage-" + y);
    JoinedReadsBack(p, "coverage-" + x, q, "coverage-" + y);
  }

  type Hash = string -> string

  ghost predicate Injective(hash: Hash) { forall a, b | hash(a) == hash(b) :: a == b }

  /** What `sar_field_stats` computes for a scene, a geometry and a list of band names, as long as
      the scene's raster stays the same. */
  type Truth = (string, string, seq<string>) -> Stats

  function KeyOf(hash: Hash, scene: string, geometry: string, polarizations: seq<string>, coverage: string): CacheKey {
    CacheKey(scene, hash(geometry), HISTORY_INDEX, VersionOf(polarizations, coverage))
  }

  function HistoryRecord(hash: Hash, truth: Truth, id: string, scene: string, geometry: string,
                         polarizations: seq<string>,
                         coverage: string, now: int, ttl: nat): Record {
    Record(id, Some(scene), Some(hash(geometry)), HISTORY_INDEX, Some(VersionOf(polarizations, coverage)),
           Some(now + ttl), now, truth(scene, geometry, polarizations))
  }

  /** A saved record answers its own key for exactly its time to live. */
  lemma AnswersForItsTtl(hash: Hash, truth: Truth, id: string, scene: string, geometry: string,
                         polarizations: seq<string>, coverage: string, now: int, ttl: nat, later: int)
    ensures var r := HistoryRecord(hash, truth, id, scene, geometry, polarizations, coverage, now, ttl);
            && (Answers(r, KeyOf(hash, scene, geometry, polarizations, coverage), later) <==> later < now + ttl)
            && r.id == id && r.createdAt == now && r.stats == truth(scene, geometry, polarizations)
  {
  }

  ghost predicate Truthful(hash: Hash, truth: Truth, r: Record) {
    forall scene, geometry, polarizations, coverage
      | Names(polarizations) && Matches(r, KeyOf(hash, scene, geometry, polarizations, coverage)) ::
      r.stats == truth(scene, geometry, polarizations)
  }

  /** A record that no history lookup can match. */
  predicate Foreign(r: Record) {
    r.index != HISTORY_INDEX || r.version.None? || !(STATS_PREFIX <= r.version.value)
  }

  lemma ForeignIsTruthful(hash: Hash, truth: Truth, r: Record)
    requires Foreign(r)
    ensures Truthful(hash, truth, r)
    ensures forall scene, geometry, polarizations, coverage ::
              !Matches(r, KeyOf(hash, scene, geometry, polarizations, coverage))
  {
  }

  /** The record of a current observation never answers a history lookup, even for a displayed
      polarization that is called "history": its version differs. */
  lemma CurrentObservationIsForeign(r: Record, displayed: string)
    requires r.index == "sar_backscatter:" + displayed && r.version == Some(EVIDENCE_VERSION)
    ensures Foreign(r)
  {
    assert EVIDENCE_VERSION[10] == 'e' && STATS_PREFIX[10] == 's';
  }

  lemma HistoryRecordIsTruthful(hash: Hash, truth: Truth, id: string, scene: string, geometry: string,
                                polarizations: seq<string>, coverage: string, now: int, ttl: nat)
    requires Injective(hash) && Names(polarizations)
    ensures Truthful(hash, truth, HistoryRecord(hash, truth, id, scene, geometry, polarizations, coverage, now, ttl))
  {
    hide VersionOf, Names;
    var r := HistoryRecord(hash, truth, id, scene, geometry, polarizations, coverage, now, ttl);
    forall s, g, p, c | Names(p) && Matches(r, KeyOf(hash, s, g, p, c))
      ensures r.stats == truth(s, g, p)
    {
      VersionReadsBack(polarizations, coverage, p, c);
      assert hash(geometry) == hash(g);
    }
  }

  /** `_cached_sar_history_stats`. */
  method CachedSarHistoryStats(repository: InMemoryFieldQueryRepository, hash: Hash, truth: Truth, newId: string,
                               scene: string,
                               geometry: string, polarizations: seq<string>, coverage: string, now: int, ttl: nat)
    returns (stats: Stats)
    modifies repository
    ensures (repository.queries, stats)
            == LookedUp(old(repository.queries), hash, truth, newId, scene, geometry, polarizations, coverage, now, ttl)
  {
    hide VersionOf;
    var cached := repository.FindCached(KeyOf(hash, scene, geometry, polarizations, coverage), now);
    if cached.Some? {
      return cached.value.stats;
    }
    stats := truth(scene, geometry, polarizations);
    repository.Save(HistoryRecord(hash, truth, newId, scene, geometry, polarizations, coverage, now, ttl));
  }

  function LookedUp(qs: seq<Record>, hash: Hash, truth: Truth, newId: string, scene: string, geometry: string,
                    polarizations: seq<string>, coverage: string, now: int, ttl: nat): (seq<Record>, Stats) {
    match Cached(qs, KeyOf(hash, scene, geometry, polarizations, coverage), now)
    case Some(r) => (qs, r.stats)
    case None =>
      (Saved(qs, HistoryRecord(hash, truth, newId, scene, geometry, polarizations, coverage, now, ttl)),
       truth(scene, geometry, polarizations))
  }

  /** What the service does with the repository: history lookups, and any other call, whose saved
      records are current observations or optical queries. */
  datatype Action =
    | Lookup(newId: string, scene: string, geometry: string, polarizations: seq<string>, coverage: string, ttl: nat,
             at: int)
    | Other(event: Event)

  predicate Allowed(a: Action) {
    match a
    case Lookup(_, _, _, polarizations, _, _, _) => Names(polarizations)
    case Other(e) => e.op.SaveOp? ==> Foreign(e.op.record)
  }

  function Act(qs: seq<Record>, hash: Hash, truth: Truth, a: Action): seq<Record> {
    match a
    case Lookup(id, scene, geometry, polarizations, coverage, ttl, at) =>
      LookedUp(qs, hash, truth, id, scene, geometry, polarizations, coverage, at, ttl).0
    case Other(e) => Next(qs, e)
  }

  function Served(hash: Hash, truth: Truth, actions: seq<Action>): seq<Record> {
    if |actions| == 0 then [] else
      Act(Served(hash, truth, actions[..|actions| - 1]), hash, truth, actions[|actions| - 1])
  }

  lemma {:induction false} CachedMatches(qs: seq<Record>, k: CacheKey, now: int)
    ensures Cached(qs, k, now).Some? ==>
              var r := Cached(qs, k, now).value;
              r in qs && Matches(r, k) && Live(r, now)
  {
    if |qs| > 0 {
      CachedMatches(qs[..|qs| - 1], k, now);
    }
  }

  lemma {:induction false} AllTruthful(hash: Hash, truth: Truth, actions: seq<Action>)
    requires Injective(hash) && forall a | a in actions :: Allowed(a)
    ensures forall r | r in Served(hash, truth, actions) :: Truthful(hash, truth, r)
  {
    hide VersionOf, Names, Truthful, Foreign, Purged, Saved, Cached;
    if |actions| > 0 {
      var before, last := Served(hash, truth, actions[..|actions| - 1]), actions[|actions| - 1];
      AllTruthful(hash, truth, actions[..|actions| - 1]);
      assert Allowed(last);
      match last {
        case Lookup(id, scene, geometry, polarizations, coverage, ttl, at) =>
          HistoryRecordIsTruthful(hash, truth, id, scene, geometry, polarizations, coverage, at, ttl);
          SavedMembers(before, HistoryRecord(hash, truth, id, scene, geometry, polarizations, coverage, at, ttl));
        case Other(e) =>
          match e.op {
            case SaveOp(r) =>
              ForeignIsTruthful(hash, truth, r);
              SavedMembers(before, r);
            case DeleteOp(limit) => PurgedMembers(before, limit, e.now);
            case GetOp(_) =>
            case FindOp(_) =>
          }
      }
    }
  }

  /** Over any run of lookups, saves, expiries and deletions, a lookup returns what a fresh
      computation would return. */
  lemma LookupIsTrue(hash: Hash, truth: Truth, actions: seq<Action>, newId: string, scene: string, geometry: string,
                     polarizations: seq<string>, coverage: string, now: int, ttl: nat)
    requires Injective(hash) && Names(polarizations) && forall a | a in actions :: Allowed(a)
    ensures LookedUp(Served(hash, truth, actions), hash, truth, newId, scene, geometry, polarizations, coverage, now,
                     ttl).1
            == truth(scene, geometry, polarizations)
  {
    hide VersionOf, Names;
    var qs := Served(hash, truth, actions);
    var k := KeyOf(hash, scene, geometry, polarizations, coverage);
    AllTruthful(hash, truth, actions);
    CachedMatches(qs, k, now);
    if Cached(qs, k, now).Some? {
      assert Truthful(hash, truth, Cached(qs, k, now).value);
    }
  }

  /** With names that hold a separator two different requests share a version, and the second is
      answered with the statistics of the first. */
  lemma SeparatorsConfuse()
    ensures Joined(["HH", "HV"]) == Joined(["HH,HV"]) && !Names(["HH,HV"])
    ensures VersionOf(["HH", "HV"], "80") == VersionOf(["HH,HV"], "80")
  {
    assert Joined(["HH", "HV"]) == "HH,HV";
    assert "HH,HV"[2] == ',';
  }

  lemma {:induction false} LiveMatchIsFound(qs: seq<Record>, k: CacheKey, now: int, r: Record)
    requires r in qs && Matches(r, k) && Live(r, now)
    ensures Cached(qs, k, now).Some?
  {
    if r != qs[|qs| - 1] {
      LiveMatchIsFound(qs[..|qs| - 1], k, now, r);
    }
  }

  lemma {:induction false} PurgeKeepsMember(qs: seq<Record>, limit: nat, now: int, r: Record)
    requires r in qs && Live(r, now)
    ensures r in Purged(qs, limit, now)
    decreases |qs|
  {
    if limit > 0 && r != qs[0] {
      PurgeKeepsMember(qs[1..], if Live(qs[0], now) then limit else limit - 1, now, r);
    }
  }

  lemma {:induction false} SaveKeepsMember(qs: seq<Record>, s: Record, r: Record)
    requires r in qs && r.id != s.id
    ensures r in Saved(qs, s)
  {
    if r != qs[0] && qs[0].id != s.id {
      SaveKeepsMember(qs[1..], s, r);
    }
  }

  /** Until a history record expires every lookup for its key is served from the repository, whatever
      is saved under other ids or deleted in the meantime. */
  lemma {:induction false} ServedUntilExpiry(qs: seq<Record>, es: seq<Event>, k: CacheKey, r: Record, now: int)
    requires r in qs && Matches(r, k) && Live(r, now)
    requires forall e | e in es :: e.now <= now && (e.op.SaveOp? ==> e.op.record.id != r.id)
    ensures Cached(Played(qs, es), k, now).Some?
  {
    StaysMember(qs, es, r, now);
    LiveMatchIsFound(Played(qs, es), k, now, r);
  }

  function Played(qs: seq<Record>, es: seq<Event>): seq<Record> {
    if |es| == 0 then qs else Next(Played(qs, es[..|es| - 1]), es[|es| - 1])
  }

  lemma {:induction false} StaysMember(qs: seq<Record>, es: seq<Event>, r: Record, now: int)
    requires r in qs && Live(r, now)
    requires forall e | e in es :: e.now <= now && (e.op.SaveOp? ==> e.op.record.id != r.id)
    ensures r in Played(qs, es)
  {
    if |es| > 0 {
      var before, last := Played(qs, es[..|es| - 1]), es[|es| - 1];
      StaysMember(qs, es[..|es| - 1], r, now);
      match last.op {
        case SaveOp(s) => SaveKeepsMember(before, s, r);
        case DeleteOp(limit) => PurgeKeepsMember(before, limit, last.now, r);
        case GetOp(_) =>
        case FindOp(_) =>
      }
    }
  }
}
