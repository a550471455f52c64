/** The Sentinel-2 daily window computed from the sync ledger, and what a sequence of daily runs
    covers. Days are integers. */
module SyncWindow {

  /** One record per provider day: whether its status is "complete". */
  type Ledger = map<int, bool>

  /** `date_window_days` and `refresh_days`, both positive. */
  datatype Settings = Settings(window: int, refresh: int)

  predicate ValidSettings(s: Settings) { s.window > 0 && s.refresh > 0 }

  datatype Window = Window(start: int, end: int)

  predicate In(day: int, w: Window) { w.start <= day <= w.end }

  function MissingDays(ledger: Ledger, s: Settings, end: int): set<int> {
    set day | end - (s.window - 1) <= day <= end && day !in ledger
  }

  function IncompleteDays(ledger: Ledger, end: int): set<int> {
    set day | day in ledger && !ledger[day] && day <= end
  }

  function Due(ledger: Ledger, s: Settings, end: int): set<int> {
    {end - (s.refresh - 1)} + MissingDays(ledger, s, end) + IncompleteDays(ledger, end)
  }

  lemma SomeDay(days: set<int>)
    ensures days == {} || exists d :: d in days
  {
    if !exists d :: d in days {
      assert days == {};
    }
  }

  lemma HasEarliest(days: set<int>)
    requires days != {}
    ensures exists m :: m in days && forall d | d in days :: m <= d
    decreases |days|
  {
    SomeDay(days);
    var d :| d in days;
    var rest := days - {d};
    if rest == {} {
      forall x | x in days ensures d <= x {
        assert x == d || x in rest;
      }
    } else {
      HasEarliest(rest);
      var m :| m in rest && forall x | x in rest :: m <= x;
      var least := if d < m then d else m;
      forall x | x in days ensures least <= x {
        assert x == d || x in rest;
      }
      assert least in days;
    }
  }

  function Earliest(days: set<int>): (m: int)
    requires days != {}
    ensures m in days && forall d | d in days :: m <= d
  {
    HasEarliest(days);
    var m :| m in days && forall d | d in days :: m <= d;
    m
  }

  /** `_scheduled_date_window`. */
  function ScheduledWindow(ledger: Ledger, s: Settings, end: int): Window {
    if ledger == map[] then Window(end - (s.window - 1), end)
    else Window(Earliest(Due(ledger, s, end)), end)
  }

  /** A day that the next window has to take in. */
  predicate NeedsRun(ledger: Ledger, s: Settings, end: int, day: int) {
    || end - s.refresh < day <= end
    || (end - s.window < day <= end && day !in ledger)
    || (day in ledger && !ledger[day] && day <= end)
  }

  lemma DueMeansNeeded(ledger: Ledger, s: Settings, end: int, day: int)
    requires ValidSettings(s)
    ensures day in Due(ledger, s, end) ==> NeedsRun(ledger, s, end, day)
    ensures NeedsRun(ledger, s, end, day) ==> end - s.refresh < day <= end || day in Due(ledger, s, end)
  {
  }

  /** The window holds every day that needs a run and begins at the earliest of them. Only a first
      run, on an empty ledger with a refresh longer than the window, holds back some overlap. */
  lemma WindowContents(ledger: Ledger, s: Settings, end: int)
    requires ValidSettings(s)
    ensures var w := ScheduledWindow(ledger, s, end);
            && w.end == end && w.start <= end && NeedsRun(ledger, s, end, w.start)
            && ((forall day | NeedsRun(ledger, s, end, day) :: In(day, w))
                <==> !(ledger == map[] && s.refresh > s.window))
  {
    var w := ScheduledWindow(ledger, s, end);
    if ledger == map[] {
      assert NeedsRun(ledger, s, end, end - s.refresh + 1);
    } else {
      DueMeansNeeded(ledger, s, end, w.start);
      forall day | NeedsRun(ledger, s, end, day) ensures In(day, w) {
        DueMeansNeeded(ledger, s, end, day);
        assert end - (s.refresh - 1) in Due(ledger, s, end);
      }
    }
  }

  /** One run: its end day, and the status it records for each day it gets to. */
  datatype Run = Run(end: int, recorded: Ledger)

  predicate WithinWindow(ledger: Ledger, s: Settings, run: Run) {
    forall day | day in run.recorded :: In(day, ScheduledWindow(ledger, s, run.end))
  }

  ghost predicate RecordsWindow(ledger: Ledger, s: Settings, run: Run) {
    forall day :: day in run.recorded <==> In(day, ScheduledWindow(ledger, s, run.end))
  }

  function After(ledger: Ledger, run: Run): Ledger { ledger + run.recorded }

  function AfterAll(ledger: Ledger, runs: seq<Run>): Ledger {
    if |runs| == 0 then ledger else After(AfterAll(ledger, runs[..|runs| - 1]), runs[|runs| - 1])
  }

  /** A recorded day that is not complete stays in every window that reaches it, whatever the
      downtime and however little the runs between get done, until a run completes it. */
  lemma {:induction false} IncompleteDayIsNeverLost(ledger: Ledger, s: Settings, runs: seq<Run>, day: int, end: int)
    requires ValidSettings(s) && day in ledger && !ledger[day] && day <= end
    requires forall r | r in runs :: !(day in r.recorded && r.recorded[day])
    ensures In(day, ScheduledWindow(AfterAll(ledger, runs), s, end))
  {
    StaysIncomplete(ledger, runs, day);
    var now := AfterAll(ledger, runs);
    WindowContents(now, s, end);
    assert NeedsRun(now, s, end, day);
  }

  lemma {:induction false} StaysIncomplete(ledger: Ledger, runs: seq<Run>, day: int)
    requires day in ledger && !ledger[day]
    requires forall r | r in runs :: !(day in r.recorded && r.recorded[day])
    ensures day in AfterAll(ledger, runs) && !AfterAll(ledger, runs)[day]
  {
    if |runs| > 0 {
      StaysIncomplete(ledger, runs[..|runs| - 1], day);
      assert runs[|runs| - 1] in runs;
    }
  }

  // ---- Coverage ----

  /** Every day from `first` to `last` is on record, and none after. */
  ghost predicate Covers(ledger: Ledger, first: int, last: int) {
    && (forall day | first <= day <= last :: day in ledger)
    && (forall day | day in ledger :: first <= day <= last)
  }

  ghost predicate SomeIncomplete(ledger: Ledger) { exists day :: day in ledger && !ledger[day] }

  /** Exactly when the next window leaves a gap behind the covered days: its end is further off
      than both the window and the refresh reach, and every recorded day is complete. */
  lemma GapExactlyWhen(ledger: Ledger, s: Settings, first: int, last: int, end: int)
    requires ValidSettings(s) && Covers(ledger, first, last) && first <= last <= end
    ensures ScheduledWindow(ledger, s, end).start > last + 1
            <==> end > last + s.window && end > last + s.refresh && !SomeIncomplete(ledger)
  {
    var w := ScheduledWindow(ledger, s, end);
    assert last in ledger;
    WindowContents(ledger, s, end);
    if end > last + s.window && end > last + s.refresh && !SomeIncomplete(ledger) {
      assert w.start > last + 1;
    } else if SomeIncomplete(ledger) {
      var day :| day in ledger && !ledger[day];
      assert NeedsRun(ledger, s, end, day);
      assert In(day, w);
    } else if end == last {
      assert NeedsRun(ledger, s, end, end);
      assert In(end, w);
    } else {
      assert NeedsRun(ledger, s, end, last + 1);
      assert In(last + 1, w);
    }
  }

  /** A run without a gap that records its window extends the covered days up to its end; days
      that reach further back than the first one are covered as well. */
  lemma RunExtendsCoverage(ledger: Ledger, s: Settings, first: int, last: int, run: Run)
    requires ValidSettings(s) && Covers(ledger, first, last) && first <= last <= run.end
    requires RecordsWindow(ledger, s, run)
    requires run.end <= last + s.window || run.end <= last + s.refresh || SomeIncomplete(ledger)
    ensures var w := ScheduledWindow(ledger, s, run.end);
            Covers(After(ledger, run), if w.start < first then w.start else first, run.end)
  {
    GapExactlyWhen(ledger, s, first, last, run.end);
    WindowContents(ledger, s, run.end);
    var w := ScheduledWindow(ledger, s, run.end);
    var from := if w.start < first then w.start else first;
    var now := After(ledger, run);
    forall day | from <= day <= run.end ensures day in now {
      if !In(day, w) {
        assert first <= day <= last;
      }
    }
  }

  /** Runs that each record their whole window, with ends that do not go back and are at most a
      window apart. */
  ghost predicate Daily(s: Settings, runs: seq<Run>) {
    forall i | 0 <= i < |runs| ::
      && RecordsWindow(AfterAll(map[], runs[..i]), s, runs[i])
      && (i > 0 ==> runs[i - 1].end <= runs[i].end <= runs[i - 1].end + s.window)
  }

  ghost predicate CoversSince(ledger: Ledger, seed: int, last: int) {
    exists first | first <= seed :: Covers(ledger, first, last)
  }

  /** Over any such runs every day since the first seed is on record; so it is complete, or it lies
      in the next window. */
  lemma {:induction false} NoDayIsMissed(s: Settings, runs: seq<Run>)
    requires ValidSettings(s) && |runs| > 0 && Daily(s, runs)
    ensures CoversSince(AfterAll(map[], runs), runs[0].end - (s.window - 1), runs[|runs| - 1].end)
    decreases |runs|
  {
    var n := |runs| - 1;
    var before := AfterAll(map[], runs[..n]);
    assert RecordsWindow(before, s, runs[n]);
    hide ScheduledWindow, Covers, RecordsWindow;
    if n == 0 {
      FirstRunCovers(s, runs[0]);
      assert before == map[];
    } else {
      forall i | 0 <= i < n ensures runs[..n][..i] == runs[..i] {}
      assert Daily(s, runs[..n]);
      NoDayIsMissed(s, runs[..n]);
      var first :| first <= runs[0].end - (s.window - 1) && Covers(before, first, runs[n - 1].end);
      EndsRise(s, runs[..n]);
      assert runs[n - 1].end <= runs[n].end <= runs[n - 1].end + s.window;
      RunExtendsCoverage(before, s, first, runs[n - 1].end, runs[n]);
    }
  }

  lemma FirstRunCovers(s: Settings, run: Run)
    requires ValidSettings(s) && RecordsWindow(map[], s, run)
    ensures CoversSince(After(map[], run), run.end - (s.window - 1), run.end)
  {
    var seed := run.end - (s.window - 1);
    assert ScheduledWindow(map[], s, run.end) == Window(seed, run.end);
    forall day ensures day in run.recorded <==> seed <= day <= run.end {
      assert day in run.recorded <==> In(day, ScheduledWindow(map[], s, run.end));
    }
    assert Covers(After(map[], run), seed, run.end);
  }

  lemma {:induction false} EndsRise(s: Settings, runs: seq<Run>)
    requires |runs| > 0 && Daily(s, runs)
    ensures runs[0].end <= runs[|runs| - 1].end
    decreases |runs|
  {
    var n := |runs| - 1;
    if n > 0 {
      forall i | 0 <= i < n ensures runs[..n][..i] == runs[..i] {}
      EndsRise(s, runs[..n]);
      assert runs[n - 1].end <= runs[n].end;
    }
  }

  lemma CompleteOrNext(s: Settings, runs: seq<Run>, day: int, end: int)
    requires ValidSettings(s) && |runs| > 0 && Daily(s, runs)
    requires runs[0].end - (s.window - 1) <= day <= end
    requires runs[|runs| - 1].end <= end <= runs[|runs| - 1].end + s.window
    ensures var now := AfterAll(map[], runs);
            (day in now && now[day]) || In(day, ScheduledWindow(now, s, end))
  {
    NoDayIsMissed(s, runs);
    var now := AfterAll(map[], runs);
    var last := runs[|runs| - 1].end;
    var first :| first <= runs[0].end - (s.window - 1) && Covers(now, first, last);
    EndsRise(s, runs);
    assert last in now;
    WindowContents(now, s, end);
    assert day <= last ==> day in now;
    if !(day in now && now[day]) {
      assert NeedsRun(now, s, end, day);
    }
  }

  /** A day in such a gap is out of reach for good: with ends that do not go back, no later window
      holds it. */
  lemma {:induction false} GapIsForEver(ledger: Ledger, s: Settings, runs: seq<Run>, day: int, end: int)
    requires ValidSettings(s) && day !in ledger && ledger != map[]
    requires forall d | d in ledger && d < day :: ledger[d]
    requires day <= end - s.window && day <= end - s.refresh
    requires forall i | 0 <= i < |runs| :: end <= runs[i].end && WithinWindow(AfterAll(ledger, runs[..i]), s, runs[i])
    ensures var now := AfterAll(ledger, runs);
            && now != map[] && day !in now && (forall d | d in now && d < day :: now[d])
            && forall e | end <= e :: !In(day, ScheduledWindow(now, s, e))
    decreases |runs|
  {
    var now := AfterAll(ledger, runs);
    if |runs| > 0 {
      var n := |runs| - 1;
      forall i | 0 <= i < n ensures runs[..n][..i] == runs[..i] {}
      GapIsForEver(ledger, s, runs[..n], day, end);
      var before := AfterAll(ledger, runs[..n]);
      assert WithinWindow(before, s, runs[n]);
      forall d | d in runs[n].recorded ensures d > day {
        assert In(d, ScheduledWindow(before, s, runs[n].end));
        WindowContents(before, s, runs[n].end);
      }
      assert before.Keys != {};
      SomeDay(before.Keys);
      var some :| some in before.Keys;
      assert some in now;
    }
    forall e | end <= e ensures !In(day, ScheduledWindow(now, s, e)) {
      WindowContents(now, s, e);
      assert ScheduledWindow(now, s, e).start > day;
    }
  }
}
