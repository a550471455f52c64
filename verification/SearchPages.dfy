/** The pagination loop of the Earth Search provider over the pages that the service would return. */
module SearchPages {
  import opened Wrappers

  /** A feature either normalizes or lacks a required part. */
  datatype Feature = Good(id: string) | Bad

  /** The pages in link order; every page but the last has a next link. */
  type Pages = seq<seq<Feature>>

  datatype SearchResult = SearchResult(items: seq<string>, exhausted: bool)

  datatype SearchError = ProviderDataError

  function All(pages: Pages): seq<Feature> {
    if |pages| == 0 then [] else All(pages[..|pages| - 1]) + pages[|pages| - 1]
  }

  predicate Clean(fs: seq<Feature>) { forall i | 0 <= i < |fs| :: fs[i].Good? }

  function Ids(fs: seq<Feature>): (r: seq<string>)
    requires Clean(fs)
    ensures |r| == |fs| && forall i | 0 <= i < |fs| :: r[i] == fs[i].id
  {
    seq(|fs|, i requires 0 <= i < |fs| => fs[i].id)
  }

  /** `items[:maximum]`. */
  function Cut(items: seq<string>, maximum: int): seq<string> {
    if maximum < 0 then (if |items| + maximum <= 0 then [] else items[..|items| + maximum])
    else if maximum < |items| then items[..maximum] else items
  }

  /** How many features the loop looks at before it stops for the maximum. */
  function Quota(maximum: int): nat { if maximum <= 1 then 1 else maximum }

  predicate Stops(all: seq<Feature>, maximum: Option<int>) { maximum.Some? && Quota(maximum.value) <= |all| }

  function Seen(all: seq<Feature>, maximum: Option<int>): seq<Feature> {
    if Stops(all, maximum) then all[..Quota(maximum.value)] else all
  }

  /** What a search comes to, as a function of everything the service has: it is called exhausted
      when it did not stop for the maximum, or stopped at the last feature of the last page. */
  function Outcome(pages: Pages, maximum: Option<int>): Result<SearchResult, SearchError>
    requires |pages| > 0
  {
    var all := All(pages);
    var seen := Seen(all, maximum);
    if !Clean(seen) then Err(ProviderDataError)
    else if Stops(all, maximum) then
      Ok(SearchResult(Cut(Ids(seen), maximum.value), |seen| == |all| && pages[|pages| - 1] != []))
    else Ok(SearchResult(Ids(all), true))
  }

  datatype Scan = Through | StoppedAt(index: nat) | Broken(index: nat)

  ghost predicate Describes(scan: Scan, features: seq<Feature>, start: nat, maximum: Option<int>) {
    match scan
    case Through => Clean(features) && (maximum.Some? ==> start + |features| < Quota(maximum.value))
    case StoppedAt(i) =>
      i < |features| && Clean(features[..i + 1]) && maximum.Some? && start + i + 1 == Quota(maximum.value)
    case Broken(i) =>
      i < |features| && features[i].Bad? && (maximum.Some? ==> start + i < Quota(maximum.value))
  }

  /** The features of one page. */
  method ScanPage(features: seq<Feature>, items: seq<string>, maximum: Option<int>)
    returns (scan: Scan, after: seq<string>)
    requires maximum.Some? ==> |items| < Quota(maximum.value)
    ensures Describes(scan, features, |items|, maximum)
    ensures scan == Through ==> after == items + Ids(features)
    ensures scan.StoppedAt? ==> after == items + Ids(features[..scan.index + 1])
  {
    after := items;
    for i := 0 to |features|
      invariant Clean(features[..i]) && after == items + Ids(features[..i])
      invariant maximum.Some? ==> |after| < Quota(maximum.value)
    {
      if features[i].Bad? {
        return Broken(i), after;
      }
      assert Clean(features[..i + 1]);
      assert Ids(features[..i + 1]) == Ids(features[..i]) + [features[i].id];
      after := after + [features[i].id];
      if maximum.Some? && |after| >= maximum.value {
        return StoppedAt(i), after;
      }
    }
    assert features[..|features|] == features;
    scan := Through;
  }

  /** `search_with_status`. */
  method SearchWithStatus(pages: Pages, maximum: Option<int>) returns (result: Result<SearchResult, SearchError>)
    requires |pages| > 0
    ensures result == Outcome(pages, maximum)
  {
    hide All, Describes, Outcome;
    var items: seq<string> := [];
    var n := 0;
    NoPages();
    while true
      invariant 0 <= n < |pages|
      invariant Clean(All(pages[..n])) && items == Ids(All(pages[..n]))
      invariant maximum.Some? ==> |items| < Quota(maximum.value)
      decreases |pages| - n
    {
      var features := pages[n];
      ghost var before := All(pages[..n]);
      var scan, after := ScanPage(features, items, maximum);
      n := n + 1;
      NextPage(pages, n - 1);
      PageDecides(pages, n - 1, scan, maximum);
      match scan {
        case Broken(_) => return Err(ProviderDataError);
        case StoppedAt(i) =>
          var truncated := i + 1 < |features| || n < |pages|;
          assert Ids(before) + Ids(features[..i + 1]) == Ids(before + features[..i + 1]);
          return Ok(SearchResult(Cut(after, maximum.value), !truncated));
        case Through =>
          items := after;
          if n == |pages| {
            return Ok(SearchResult(items, true));
          }
      }
    }
  }

  lemma NoPages()
    ensures forall pages: Pages :: All(pages[..0]) == []
  {
  }

  lemma NextPage(pages: Pages, n: nat)
    requires n < |pages|
    ensures All(pages[..n + 1]) == All(pages[..n]) + pages[n]
    ensures pages[..|pages|] == pages
  {
    assert pages[..n + 1][..n] == pages[..n];
  }

  /** The features of the first pages come first. */
  lemma {:induction false} FirstPagesFirst(pages: Pages, n: nat)
    requires n <= |pages|
    ensures All(pages[..n]) <= All(pages)
    ensures n < |pages| && pages[|pages| - 1] != [] ==> |All(pages[..n])| < |All(pages)|
    decreases |pages|
  {
    if n == |pages| {
      assert pages[..n] == pages;
    } else {
      var front := pages[..|pages| - 1];
      FirstPagesFirst(front, n);
      assert front[..n] == pages[..n];
    }
  }

  /** What the scan of page `n` says about the whole search. */
  lemma PageDecides(pages: Pages, n: nat, scan: Scan, maximum: Option<int>)
    requires n < |pages| && Clean(All(pages[..n])) && Describes(scan, pages[n], |All(pages[..n])|, maximum)
    ensures match scan
            case Broken(_) => Outcome(pages, maximum) == Err(ProviderDataError)
            case StoppedAt(i) =>
              Clean(All(pages[..n]) + pages[n][..i + 1])
              && Outcome(pages, maximum)
                 == Ok(SearchResult(Cut(Ids(All(pages[..n]) + pages[n][..i + 1]), maximum.value),
                                    !(i + 1 < |pages[n]| || n + 1 < |pages|)))
            case Through =>
              && Clean(pages[n]) && Clean(All(pages[..n + 1]))
              && Ids(All(pages[..n + 1])) == Ids(All(pages[..n])) + Ids(pages[n])
              && (maximum.Some? ==> |All(pages[..n + 1])| < Quota(maximum.value))
              && (n + 1 == |pages| ==> Outcome(pages, maximum) == Ok(SearchResult(Ids(All(pages[..n + 1])), true)))
  {
    hide Outcome, Describes, All;
    match scan {
      case Broken(i) => BrokenPage(pages, n, i, maximum);
      case StoppedAt(i) => StoppingPage(pages, n, i, maximum);
      case Through => ThroughPage(pages, n, maximum);
    }
  }

  lemma BrokenPage(pages: Pages, n: nat, i: nat, maximum: Option<int>)
    requires n < |pages| && Clean(All(pages[..n])) && Describes(Broken(i), pages[n], |All(pages[..n])|, maximum)
    ensures Outcome(pages, maximum) == Err(ProviderDataError)
  {
    hide All, Ids;
    var all, before := All(pages), All(pages[..n]);
    NextPage(pages, n);
    FirstPagesFirst(pages, n + 1);
    assert all[|before| + i] == pages[n][i];
  }

  lemma StoppingPage(pages: Pages, n: nat, i: nat, maximum: Option<int>)
    requires n < |pages| && Clean(All(pages[..n])) && Describes(StoppedAt(i), pages[n], |All(pages[..n])|, maximum)
    ensures Clean(All(pages[..n]) + pages[n][..i + 1])
    ensures Outcome(pages, maximum) == Ok(SearchResult(Cut(Ids(All(pages[..n]) + pages[n][..i + 1]), maximum.value),
                                                       !(i + 1 < |pages[n]| || n + 1 < |pages|)))
  {
    hide All, Ids;
    NextPage(pages, n);
    FirstPagesFirst(pages, n + 1);
    assert All(pages[..n]) + pages[n][..i + 1] == All(pages)[..Quota(maximum.value)];
  }

  lemma ThroughPage(pages: Pages, n: nat, maximum: Option<int>)
    requires n < |pages| && Clean(All(pages[..n])) && Describes(Through, pages[n], |All(pages[..n])|, maximum)
    ensures Clean(pages[n]) && Clean(All(pages[..n + 1]))
    ensures Ids(All(pages[..n + 1])) == Ids(All(pages[..n])) + Ids(pages[n])
    ensures maximum.Some? ==> |All(pages[..n + 1])| < Quota(maximum.value)
    ensures n + 1 == |pages| ==> Outcome(pages, maximum) == Ok(SearchResult(Ids(All(pages[..n + 1])), true))
  {
    hide All;
    NextPage(pages, n);
  }

  /** The items are always the first that the service has. */
  lemma ItemsAreAPrefix(pages: Pages, maximum: Option<int>)
    requires |pages| > 0 && Clean(All(pages))
    ensures Outcome(pages, maximum).Ok? && Outcome(pages, maximum).value.items <= Ids(All(pages))
  {
    hide All;
  }

  /** "Exhausted" means that nothing was left out, except in one case: a maximum below one, and a
      single feature, on the last page. */
  lemma ExhaustedIsHonest(pages: Pages, maximum: Option<int>)
    requires |pages| > 0 && Clean(All(pages))
    ensures var result := Outcome(pages, maximum).value;
            (result.exhausted ==> result.items == Ids(All(pages)))
            <==> maximum.None? || maximum.value >= 1 || |All(pages)| != 1 || pages[|pages| - 1] == []
  {
  }

  /** What a search returns, in terms of the features in page order: at most the maximum, none for a maximum
      below one, otherwise all; it fails exactly when one that it looks at is broken, and it looks at the
      first features up to the maximum, but at one at least. */
  lemma OutcomeMeans(pages: Pages, maximum: Option<int>)
    requires |pages| > 0
    ensures var all := All(pages);
            Outcome(pages, maximum).Err?
            <==> exists i | 0 <= i < |all| :: all[i].Bad? && (maximum.None? || i == 0 || i < maximum.value)
    ensures var all := All(pages);
            Outcome(pages, maximum).Ok? ==>
              var items := Outcome(pages, maximum).value.items;
              && |items| == (if maximum.None? || maximum.value >= |all| then |all|
                             else if maximum.value <= 0 then 0 else maximum.value)
              && forall i | 0 <= i < |items| :: all[i] == Good(items[i])
    ensures var all := All(pages);
            Outcome(pages, maximum).Ok? ==>
              (Outcome(pages, maximum).value.exhausted
               <==> || maximum.None? || |all| == 0 || |all| < maximum.value
                    || (pages[|pages| - 1] != [] && (|all| == 1 || |all| <= maximum.value)))
  {
    hide All;
    var all := All(pages);
    var seen := Seen(all, maximum);
    if !Clean(seen) {
      var i :| 0 <= i < |seen| && !seen[i].Good?;
      assert all[i].Bad?;
    }
  }
}
