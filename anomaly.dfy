/**
 * Anomaly classification against a forecast band and the rolling-window
 * choice of one representative anomaly per window
 * (`select_anomalies_by_rolling_window` in anomaliDetection-19-test.py).
 *
 * Timestamps (`ds`) are whole minutes; values are exact reals. The band
 * (`yhat`, `yhat_lower`, `yhat_upper`) is an input: the forecaster that
 * produces it is not part of this model.
 */
module AnomalySelection {
  import opened Wrappers
  import Sorting

  /** One row of the merged frame: the observation and its forecast band. */
  datatype Observation = Observation(ds: int, y: real, yhat: real, yhatLower: real, yhatUpper: real)

  /** The anomaly look-back of anomaliDetection-19-test.py, in hours. */
  const LookbackHours48: int := 48
  /** The anomaly look-back of anomalyDetection-16.py, in hours. */
  const LookbackHours24: int := 24
  /** The window of both `select_anomalies_by_rolling_window` call sites, in hours. */
  const WindowHours: int := 2
  /** The fixed sweep step of `select_anomalies_by_rolling_window`, in minutes. */
  const StepMinutes: int := 5

  predicate IsSpike(o: Observation)
  {
    o.y > o.yhatUpper
  }

  predicate IsDrop(o: Observation)
  {
    o.y < o.yhatLower
  }

  /** Boolean-mask selection `rows[mask]`: keeps, in order, the rows satisfying `keep`. */
  function Where(rows: seq<Observation>, keep: Observation -> bool): (r: seq<Observation>)
    ensures |r| <= |rows|
  {
    if rows == [] then []
    else
      var init, last := rows[..|rows| - 1], rows[|rows| - 1];
      assert rows == init + [last];
      Where(init, keep) + (if keep(last) then [last] else [])
  }

  /** The mask keeps every row satisfying `keep`, as often as it occurs, and no other. */
  lemma {:induction false} WhereCounts(rows: seq<Observation>, keep: Observation -> bool)
    ensures forall i | 0 <= i < |Where(rows, keep)| :: keep(Where(rows, keep)[i])
    ensures forall o :: multiset(Where(rows, keep))[o] == if keep(o) then multiset(rows)[o] else 0
  {
    if rows != [] {
      var init, last := rows[..|rows| - 1], rows[|rows| - 1];
      assert rows == init + [last];
      WhereCounts(init, keep);
    }
  }

  /** `df[df['y'] > df['yhat_upper']]`. */
  function Spikes(rows: seq<Observation>): seq<Observation>
  {
    Where(rows, IsSpike)
  }

  /** `df[df['y'] < df['yhat_lower']]`. */
  function Drops(rows: seq<Observation>): seq<Observation>
  {
    Where(rows, IsDrop)
  }

  /** The `anomaly` column: one flag per row. */
  function AnomalyFlags(rows: seq<Observation>): (flags: seq<bool>)
    ensures |flags| == |rows|
  {
    seq(|rows|, i requires 0 <= i < |rows| => rows[i].y > rows[i].yhatUpper || rows[i].y < rows[i].yhatLower)
  }

  /** `df_merged[df_merged['ds'] >= anomaly_start_time]` with the start `hours` before `end`. */
  function RecentRows(rows: seq<Observation>, end: int, hours: int): seq<Observation>
  {
    Where(rows, (o: Observation) => o.ds >= end - hours * 60)
  }

  /**
   * A row is a spike exactly when it lies strictly above the band and a
   * drop exactly when it lies strictly below; a value on an edge of the
   * band is neither. The `anomaly` flag of a row is set exactly when the
   * row is kept as a spike or as a drop.
   */
  lemma AnomalyIsSpikeOrDrop(rows: seq<Observation>, i: nat)
    requires i < |rows|
    ensures rows[i] in Spikes(rows) <==> rows[i].y > rows[i].yhatUpper
    ensures rows[i] in Drops(rows) <==> rows[i].y < rows[i].yhatLower
    ensures AnomalyFlags(rows)[i] <==> rows[i] in Spikes(rows) || rows[i] in Drops(rows)
  {
    var o := rows[i];
    WhereCounts(rows, IsSpike);
    WhereCounts(rows, IsDrop);
    assert o in multiset(rows);
    assert o in Spikes(rows) <==> o in multiset(Spikes(rows));
    assert o in Drops(rows) <==> o in multiset(Drops(rows));
  }

  /** Only rows at most `hours` hours older than `end` are ever classified. */
  lemma RecentRowsWindow(rows: seq<Observation>, end: int, hours: int, o: Observation)
    ensures o in RecentRows(rows, end, hours) <==> o in rows && o.ds >= end - hours * 60
  {
    var r := RecentRows(rows, end, hours);
    WhereCounts(rows, (o: Observation) => o.ds >= end - hours * 60);
    assert o in r <==> o in multiset(r);
    assert o in rows <==> o in multiset(rows);
  }

  // ---------------------------------------------------------------------
  // Rolling-window representatives
  // ---------------------------------------------------------------------

  /** `pick='max'` keeps the largest `y` of a window; any other value the smallest. */
  datatype Pick = Max | Min

  /** `a` is strictly more extreme than `b` in the direction of `pick`. */
  predicate Beats(pick: Pick, a: real, b: real)
  {
    if pick == Max then a > b else a < b
  }

  /** The half-open window `[lo, hi)`. */
  predicate InWindow(o: Observation, lo: int, hi: int)
  {
    lo <= o.ds < hi
  }

  /**
   * Among the first `n` rows, row `j` is what `idxmax` (`idxmin`) returns on
   * the rows of `[lo, hi)`: it lies in the window, no row of the window beats
   * it, and every earlier row of the window has a different `y` (the first
   * occurrence wins ties).
   */
  ghost predicate IsFirstExtreme(rows: seq<Observation>, n: nat, lo: int, hi: int, pick: Pick, j: nat)
    requires n <= |rows|
  {
    && j < n
    && InWindow(rows[j], lo, hi)
    && (forall i | 0 <= i < n && InWindow(rows[i], lo, hi) :: !Beats(pick, rows[i].y, rows[j].y))
    && (forall i | 0 <= i < j && InWindow(rows[i], lo, hi) :: rows[i].y != rows[j].y)
  }

  /**
   * `window_df['y'].idxmax()` (`idxmin()`) over the rows of `[lo, hi)` among
   * the first `n` rows: a left-to-right scan that replaces its candidate only
   * by a strictly more extreme row. None when the window is empty.
   */
  function BestIndex(rows: seq<Observation>, lo: int, hi: int, pick: Pick, n: nat): (r: Option<nat>)
    requires n <= |rows|
    ensures r.Some? ==> r.value < n
  {
    if n == 0 then None
    else
      var prev := BestIndex(rows, lo, hi, pick, n - 1);
      if !InWindow(rows[n - 1], lo, hi) then prev
      else if prev.None? then Some(n - 1)
      else if Beats(pick, rows[n - 1].y, rows[prev.value].y) then Some(n - 1)
      else prev
  }

  /** The scan finds a row exactly when the window holds one, and that row is the first extreme one. */
  lemma {:induction false} BestIndexIsFirstExtreme(rows: seq<Observation>, lo: int, hi: int, pick: Pick, n: nat)
    requires n <= |rows|
    ensures var r := BestIndex(rows, lo, hi, pick, n);
      && (r.None? <==> forall i | 0 <= i < n :: !InWindow(rows[i], lo, hi))
      && (r.Some? ==> IsFirstExtreme(rows, n, lo, hi, pick, r.value))
  {
    if n > 0 {
      BestIndexIsFirstExtreme(rows, lo, hi, pick, n - 1);
    }
  }

  /** One evaluated, non-empty window: where it starts and which row it keeps. */
  datatype Choice = Choice(start: int, index: nat)

  /** Every choice points at one of `n` rows. */
  predicate ValidChoices(cs: seq<Choice>, n: int)
  {
    forall k | 0 <= k < |cs| :: cs[k].index < n
  }

  /** The choice window `[start, start + window)` contributes: nothing when it is empty. */
  function WindowChoice(rows: seq<Observation>, start: int, window: int, pick: Pick): (cs: seq<Choice>)
    ensures |cs| <= 1
    ensures ValidChoices(cs, |rows|)
  {
    match BestIndex(rows, start, start + window, pick, |rows|)
    case None => []
    case Some(j) => [Choice(start, j)]
  }

  /**
   * The windows `[current, current + window)`, `[current + step, ...)`, ...
   * evaluated while `current + window <= last`, each keeping its first
   * extreme row; empty windows keep nothing.
   */
  function Sweep(rows: seq<Observation>, current: int, last: int, window: int, step: int, pick: Pick): (cs: seq<Choice>)
    requires step > 0
    ensures ValidChoices(cs, |rows|)
    decreases last - window - current
  {
    if current + window > last then []
    else WindowChoice(rows, current, window, pick) + Sweep(rows, current + step, last, window, step, pick)
  }

  /** The rows a sequence of choices keeps, in order. */
  function Chosen(rows: seq<Observation>, cs: seq<Choice>): (r: seq<Observation>)
    requires ValidChoices(cs, |rows|)
    ensures |r| == |cs|
    ensures forall k | 0 <= k < |cs| :: r[k] == rows[cs[k].index]
  {
    if cs == [] then [] else [rows[cs[0].index]] + Chosen(rows, cs[1..])
  }

  /** `a.ds <= b.ds`: the order of `sort_values('ds')`. */
  predicate NotLater(a: Observation, b: Observation)
  {
    a.ds <= b.ds
  }

  lemma NotLaterIsTotalPreorder()
    ensures Sorting.TotalPreorder(NotLater)
  {
  }

  /** Timestamps never decrease along `rows`. */
  predicate SortedByTime(rows: seq<Observation>)
  {
    forall i, j | 0 <= i < j < |rows| :: rows[i].ds <= rows[j].ds
  }

  /** `anomalies_df.sort_values('ds')`. */
  function ByTime(rows: seq<Observation>): (sorted: seq<Observation>)
    ensures |sorted| == |rows|
  {
    Sorting.Sort(rows, NotLater)
  }

  /** Sorting by time orders the rows and neither adds nor drops any. */
  lemma ByTimeSortsRows(rows: seq<Observation>)
    ensures SortedByTime(ByTime(rows))
    ensures multiset(ByTime(rows)) == multiset(rows)
  {
    NotLaterIsTotalPreorder();
    Sorting.SortSorts(rows, NotLater);
    var sorted := ByTime(rows);
    assert forall i, j | 0 <= i < j < |sorted| :: NotLater(sorted[i], sorted[j]);
  }

  /** The windows evaluated on `anomalies` and the row each non-empty one keeps. */
  function Selection(anomalies: seq<Observation>, window: int, step: int, pick: Pick): (cs: seq<Choice>)
    requires step > 0
    ensures ValidChoices(cs, |anomalies|)
  {
    if anomalies == [] then []
    else
      var sorted := ByTime(anomalies);
      Sweep(sorted, sorted[0].ds, sorted[|sorted| - 1].ds, window, step, pick)
  }

  /** What `select_anomalies_by_rolling_window` returns, as a function of its inputs. */
  function Representatives(anomalies: seq<Observation>, window: int, step: int, pick: Pick): seq<Observation>
    requires step > 0
  {
    Chosen(ByTime(anomalies), Selection(anomalies, window, step, pick))
  }

  lemma {:induction false} ChosenConcat(rows: seq<Observation>, a: seq<Choice>, b: seq<Choice>)
    requires ValidChoices(a, |rows|)
    requires ValidChoices(b, |rows|)
    ensures Chosen(rows, a + b) == Chosen(rows, a) + Chosen(rows, b)
  {
    var ab := a + b;
    assert Chosen(rows, ab) == Chosen(rows, a) + Chosen(rows, b);
  }

  /** Advancing the sweep by one window: its row, if any, comes before the rows of the rest. */
  lemma AdvanceSweep(rows: seq<Observation>, current: int, last: int, window: int, pick: Pick, best: Option<nat>)
    requires current + window <= last
    requires best == BestIndex(rows, current, current + window, pick, |rows|)
    ensures best.Some? ==> best.value < |rows|
    ensures Chosen(rows, Sweep(rows, current, last, window, StepMinutes, pick))
      == (if best.Some? then [rows[best.value]] else [])
        + Chosen(rows, Sweep(rows, current + StepMinutes, last, window, StepMinutes, pick))
  {
    SweepChosenStep(rows, current, last, window, pick);
    WindowChosen(rows, current, window, pick);
  }

  lemma ConcatAssoc<T>(a: seq<T>, b: seq<T>, c: seq<T>)
    ensures a + (b + c) == a + b + c
  {
  }

  /** The rows the sweep chooses are those of its first window, then those of the rest. */
  lemma SweepChosenStep(rows: seq<Observation>, current: int, last: int, window: int, pick: Pick)
    requires current + window <= last
    ensures Chosen(rows, Sweep(rows, current, last, window, StepMinutes, pick))
      == Chosen(rows, WindowChoice(rows, current, window, pick))
        + Chosen(rows, Sweep(rows, current + StepMinutes, last, window, StepMinutes, pick))
  {
    var here := WindowChoice(rows, current, window, pick);
    var rest := Sweep(rows, current + StepMinutes, last, window, StepMinutes, pick);
    assert Sweep(rows, current, last, window, StepMinutes, pick) == here + rest;
    ChosenConcat(rows, here, rest);
  }

  /** A window contributes its first extreme row, or nothing when it is empty. */
  lemma WindowChosen(rows: seq<Observation>, current: int, window: int, pick: Pick)
    ensures var best := BestIndex(rows, current, current + window, pick, |rows|);
      Chosen(rows, WindowChoice(rows, current, window, pick)) == if best.Some? then [rows[best.value]] else []
  {
  }

  /** Once the window passes the latest row, the sweep has nothing left to choose. */
  lemma SweepDone(rows: seq<Observation>, current: int, last: int, window: int, pick: Pick,
                  acc: seq<Observation>, whole: seq<Observation>)
    requires current + window > last
    requires acc + Chosen(rows, Sweep(rows, current, last, window, StepMinutes, pick)) == whole
    ensures acc == whole
  {
    assert acc + [] == acc;
  }

  /**
   * The `while` loop of the selection, over rows already sorted by time:
   * the window `[current, current + window)` sweeps from the earliest
   * timestamp in steps of five minutes while `current + window` does not
   * pass the latest one, appending the first extreme row of every non-empty
   * window.
   */
  method SweepWindows(sorted: seq<Observation>, window: int, pick: Pick) returns (selected: seq<Observation>)
    requires sorted != []
    ensures selected == Chosen(sorted, Sweep(sorted, sorted[0].ds, sorted[|sorted| - 1].ds, window, StepMinutes, pick))
  {
    var first, last := sorted[0].ds, sorted[|sorted| - 1].ds;
    ghost var whole := Chosen(sorted, Sweep(sorted, first, last, window, StepMinutes, pick));
    selected := [];
    var current := first;
    while current + window <= last
      invariant selected + Chosen(sorted, Sweep(sorted, current, last, window, StepMinutes, pick)) == whole
      decreases last - window - current
    {
      var best := BestIndex(sorted, current, current + window, pick, |sorted|);
      AdvanceSweep(sorted, current, last, window, pick, best);
      ghost var rest := Chosen(sorted, Sweep(sorted, current + StepMinutes, last, window, StepMinutes, pick));
      if best.Some? {
        ConcatAssoc(selected, [sorted[best.value]], rest);
        selected := selected + [sorted[best.value]];
      } else {
        assert [] + rest == rest;
      }
      current := current + StepMinutes;
    }
    SweepDone(sorted, current, last, window, pick, selected, whole);
  }

  /**
   * `select_anomalies_by_rolling_window(anomalies_df, window_hours, pick)`:
   * an empty frame gives an empty result; otherwise the rows are sorted by
   * time and swept with a window of `window_hours` hours. Nothing is
   * de-duplicated.
   */
  method SelectByRollingWindow(anomalies: seq<Observation>, windowHours: int, pick: Pick)
    returns (selected: seq<Observation>)
    ensures selected == Representatives(anomalies, windowHours * 60, StepMinutes, pick)
  {
    if anomalies == [] {
      return [];
    }
    var sorted := ByTime(anomalies);
    selected := SweepWindows(sorted, windowHours * 60, pick);
  }

  // ---------------------------------------------------------------------
  // Properties of the selection
  // ---------------------------------------------------------------------

  /** The earliest and the latest rows of the sorted frame are rows of the input, and bound all of them. */
  lemma ByTimeEnds(anomalies: seq<Observation>)
    requires anomalies != []
    ensures ByTime(anomalies)[0] in anomalies
    ensures ByTime(anomalies)[|anomalies| - 1] in anomalies
    ensures forall o | o in anomalies :: ByTime(anomalies)[0].ds <= o.ds <= ByTime(anomalies)[|anomalies| - 1].ds
  {
    var sorted := ByTime(anomalies);
    ByTimeSortsRows(anomalies);
    assert sorted[0] in multiset(sorted);
    assert sorted[|sorted| - 1] in multiset(sorted);
    forall o | o in anomalies
      ensures sorted[0].ds <= o.ds <= sorted[|sorted| - 1].ds
    {
      assert o in multiset(sorted);
      var m :| 0 <= m < |sorted| && sorted[m] == o;
    }
  }

  /** Every representative is one of the anomalies passed in. */
  lemma RepresentativesAreAnomalies(anomalies: seq<Observation>, window: int, step: int, pick: Pick)
    requires step > 0
    ensures forall o | o in Representatives(anomalies, window, step, pick) :: o in anomalies
  {
    var sorted := ByTime(anomalies);
    ByTimeSortsRows(anomalies);
    forall o | o in Representatives(anomalies, window, step, pick)
      ensures o in anomalies
    {
      var r := Representatives(anomalies, window, step, pick);
      var k :| 0 <= k < |r| && r[k] == o;
      assert o in multiset(sorted);
    }
  }

  /**
   * No window is evaluated, and nothing is selected, exactly when the time
   * span of the anomalies is shorter than the window (for a positive window;
   * a span that short always gives nothing).
   */
  lemma {:induction false} EmptyIffShortSpan(anomalies: seq<Observation>, window: int, step: int, pick: Pick)
    requires step > 0
    ensures (forall o, p | o in anomalies && p in anomalies :: p.ds - o.ds < window)
      ==> Representatives(anomalies, window, step, pick) == []
    ensures window > 0 ==>
      ((Representatives(anomalies, window, step, pick) == [])
       <==> (forall o, p | o in anomalies && p in anomalies :: p.ds - o.ds < window))
  {
    if anomalies != [] {
      var sorted := ByTime(anomalies);
      var first, last := sorted[0].ds, sorted[|sorted| - 1].ds;
      ByTimeEnds(anomalies);
      if first + window <= last {
        assert !(last - first < window);
        if window > 0 {
          BestIndexIsFirstExtreme(sorted, first, first + window, pick, |sorted|);
          assert InWindow(sorted[0], first, first + window);
          assert |WindowChoice(sorted, first, window, pick)| == 1;
        }
      }
    }
  }

  /** The start of the `m`-th window of a sweep that begins at `first`. */
  function WindowStart(first: int, step: int, m: nat): int
  {
    first + m * step
  }

  lemma NextWindowStart(first: int, step: int, m: nat)
    ensures WindowStart(first + step, step, m) == WindowStart(first, step, m + 1)
  {
    assert (m + 1) * step == m * step + step;
  }

  /** `s` is the start of one of the windows of a sweep that begins at `first`. */
  ghost predicate IsWindowStart(first: int, step: int, s: int)
  {
    exists m: nat :: s == WindowStart(first, step, m)
  }

  /** A start of the sweep from `first + step` is a start of the sweep from `first`. */
  lemma LaterWindowStart(first: int, step: int, s: int)
    requires IsWindowStart(first + step, step, s)
    ensures IsWindowStart(first, step, s)
  {
    var m: nat :| s == WindowStart(first + step, step, m);
    NextWindowStart(first, step, m);
  }

  lemma WindowStartNotBefore(first: int, step: int, m: nat)
    requires step > 0
    ensures first <= WindowStart(first, step, m)
  {
    assert m * step >= 0;
  }

  /** The number of windows the loop evaluates when it starts at `current`. */
  function WindowCount(current: int, last: int, window: int, step: int): nat
    requires step > 0
    decreases last - window - current
  {
    if current + window > last then 0 else 1 + WindowCount(current + step, last, window, step)
  }

  /**
   * The loop evaluates `n` windows, where the `(n-1)`-th window (counting
   * from 0) still ends by `last` and the `n`-th would not; none at all when
   * the first window already ends after `last`.
   */
  lemma {:induction false} WindowCountBounds(current: int, last: int, window: int, step: int)
    requires step > 0
    ensures var n := WindowCount(current, last, window, step);
      && (n == 0 <==> current + window > last)
      && (n > 0 ==> WindowStart(current, step, n - 1) + window <= last < WindowStart(current, step, n) + window)
    decreases last - window - current
  {
    if current + window <= last {
      var n' := WindowCount(current + step, last, window, step);
      WindowCountBounds(current + step, last, window, step);
      NextWindowStart(current, step, n');
      if n' > 0 {
        NextWindowStart(current, step, n' - 1);
      }
    }
  }

  /** Each evaluated window adds at most one row. */
  lemma {:induction false} SweepAtMostOnePerWindow(rows: seq<Observation>, current: int, last: int, window: int, step: int, pick: Pick)
    requires step > 0
    ensures |Sweep(rows, current, last, window, step, pick)| <= WindowCount(current, last, window, step)
    decreases last - window - current
  {
    if current + window <= last {
      SweepAtMostOnePerWindow(rows, current + step, last, window, step, pick);
    }
  }

  /**
   * The selection holds at most one row per evaluated window, and none
   * when the first window `[min, min + window)` already ends after the
   * latest anomaly.
   */
  lemma RepresentativesCount(anomalies: seq<Observation>, window: int, step: int, pick: Pick)
    requires step > 0
    requires anomalies != []
    ensures var sorted := ByTime(anomalies);
      var first, last := sorted[0].ds, sorted[|sorted| - 1].ds;
      |Representatives(anomalies, window, step, pick)| <= WindowCount(first, last, window, step)
  {
    var sorted := ByTime(anomalies);
    SweepAtMostOnePerWindow(sorted, sorted[0].ds, sorted[|sorted| - 1].ds, window, step, pick);
  }

  /**
   * Every choice of the sweep belongs to an evaluated window: its start is
   * `current + m * step` for some `m`, the window `[start, start + window)`
   * ends no later than `last`, the starts strictly increase, and the kept row
   * is the first extreme row of that window.
   */
  ghost predicate SweptChoice(rows: seq<Observation>, current: int, last: int, window: int, step: int, pick: Pick, c: Choice)
  {
    && current <= c.start
    && IsWindowStart(current, step, c.start)
    && c.start + window <= last
    && c.index < |rows|
    && IsFirstExtreme(rows, |rows|, c.start, c.start + window, pick, c.index)
  }

  /** The windows of a sequence of choices start strictly one after the other. */
  predicate StartsIncrease(cs: seq<Choice>)
  {
    forall k, l | 0 <= k < l < |cs| :: cs[k].start < cs[l].start
  }

  lemma SweepSound(rows: seq<Observation>, current: int, last: int, window: int, step: int, pick: Pick)
    requires step > 0
    ensures forall c | c in Sweep(rows, current, last, window, step, pick) :: SweptChoice(rows, current, last, window, step, pick, c)
    ensures StartsIncrease(Sweep(rows, current, last, window, step, pick))
  {
    SweepChoicesSound(rows, current, last, window, step, pick);
    SweepStartsIncrease(rows, current, last, window, step, pick);
  }

  lemma {:induction false} SweepChoicesSound(rows: seq<Observation>, current: int, last: int, window: int, step: int, pick: Pick)
    requires step > 0
    ensures forall c | c in Sweep(rows, current, last, window, step, pick) :: SweptChoice(rows, current, last, window, step, pick, c)
    decreases last - window - current
  {
    if current + window <= last {
      var here := WindowChoice(rows, current, window, pick);
      var rest := Sweep(rows, current + step, last, window, step, pick);
      BestIndexIsFirstExtreme(rows, current, current + window, pick, |rows|);
      SweepChoicesSound(rows, current + step, last, window, step, pick);
      if here != [] {
        assert here[0].start == WindowStart(current, step, 0);
      }
      forall c | c in rest
        ensures SweptChoice(rows, current, last, window, step, pick, c)
      {
        LaterWindowStart(current, step, c.start);
      }
    }
  }

  lemma {:induction false} SweepStartsIncrease(rows: seq<Observation>, current: int, last: int, window: int, step: int, pick: Pick)
    requires step > 0
    ensures StartsIncrease(Sweep(rows, current, last, window, step, pick))
    decreases last - window - current
  {
    if current + window <= last {
      var here := WindowChoice(rows, current, window, pick);
      var rest := Sweep(rows, current + step, last, window, step, pick);
      SweepStartsIncrease(rows, current + step, last, window, step, pick);
      SweepChoicesSound(rows, current + step, last, window, step, pick);
      assert forall c | c in rest :: current < c.start;
      var cs := here + rest;
      forall k, l | 0 <= k < l < |cs|
        ensures cs[k].start < cs[l].start
      {
        assert cs[l] == rest[l - |here|];
        assert cs[l] in rest;
        if k >= |here| {
          assert cs[k] == rest[k - |here|];
        }
      }
    }
  }

  /**
   * Every window the loop evaluates that holds at least one row adds a
   * choice for that window.
   */
  lemma {:induction false} SweepComplete(rows: seq<Observation>, current: int, last: int, window: int, step: int, pick: Pick, m: nat, i: nat)
    requires step > 0
    requires WindowStart(current, step, m) + window <= last
    requires i < |rows| && InWindow(rows[i], WindowStart(current, step, m), WindowStart(current, step, m) + window)
    ensures exists c | c in Sweep(rows, current, last, window, step, pick) :: c.start == WindowStart(current, step, m)
    decreases m
  {
    var cs := Sweep(rows, current, last, window, step, pick);
    if m == 0 {
      BestIndexIsFirstExtreme(rows, current, current + window, pick, |rows|);
      assert cs[0].start == current;
      assert cs[0] in cs;
    } else {
      NextWindowStart(current, step, m - 1);
      WindowStartNotBefore(current, step, m);
      var here := WindowChoice(rows, current, window, pick);
      var rest := Sweep(rows, current + step, last, window, step, pick);
      SweepComplete(rows, current + step, last, window, step, pick, m - 1, i);
      var c :| c in rest && c.start == WindowStart(current, step, m);
      assert c in cs;
    }
  }

  /**
   * Representatives come out in sweep order, so their timestamps never
   * decrease: two windows that kept different rows kept them in time order.
   */
  lemma RepresentativesInTimeOrder(anomalies: seq<Observation>, window: int, step: int, pick: Pick)
    requires step > 0
    ensures SortedByTime(Representatives(anomalies, window, step, pick))
  {
    if anomalies != [] {
      var sorted := ByTime(anomalies);
      ByTimeSortsRows(anomalies);
      SweepInTimeOrder(sorted, sorted[0].ds, sorted[|sorted| - 1].ds, window, step, pick);
    }
  }

  /** On rows sorted by time, the rows a sweep keeps are sorted by time. */
  lemma SweepInTimeOrder(sorted: seq<Observation>, current: int, last: int, window: int, step: int, pick: Pick)
    requires step > 0
    requires SortedByTime(sorted)
    ensures SortedByTime(Chosen(sorted, Sweep(sorted, current, last, window, step, pick)))
  {
    var r := Chosen(sorted, Sweep(sorted, current, last, window, step, pick));
    forall k, l | 0 <= k < l < |r|
      ensures r[k].ds <= r[l].ds
    {
      SweepPairInTimeOrder(sorted, current, last, window, step, pick, k, l);
    }
  }

  lemma SweepPairInTimeOrder(sorted: seq<Observation>, current: int, last: int, window: int, step: int, pick: Pick, k: nat, l: nat)
    requires step > 0
    requires SortedByTime(sorted)
    requires k < l < |Sweep(sorted, current, last, window, step, pick)|
    ensures var cs := Sweep(sorted, current, last, window, step, pick);
      sorted[cs[k].index].ds <= sorted[cs[l].index].ds
  {
    var cs := Sweep(sorted, current, last, window, step, pick);
    SweepSound(sorted, current, last, window, step, pick);
    assert cs[k] in cs && cs[l] in cs;
    ChoicesInTimeOrder(sorted, window, pick, cs[k], cs[l]);
  }

  /** Two windows, the first starting earlier, keep rows in time order. */
  lemma ChoicesInTimeOrder(sorted: seq<Observation>, window: int, pick: Pick, a: Choice, b: Choice)
    requires SortedByTime(sorted)
    requires a.start < b.start
    requires a.index < |sorted| && IsFirstExtreme(sorted, |sorted|, a.start, a.start + window, pick, a.index)
    requires b.index < |sorted| && IsFirstExtreme(sorted, |sorted|, b.start, b.start + window, pick, b.index)
    ensures sorted[a.index].ds <= sorted[b.index].ds
  {
    var i, j := a.index, b.index;
    if sorted[j].ds < sorted[i].ds {
      // Both rows would then lie in both windows, `j` first in time.
      assert false;
    }
  }

  /**
   * The window behind each choice of the selection starts a whole number of
   * steps after the earliest anomaly and ends no later than the latest one;
   * the row it keeps lies in it, no anomaly of that window is more extreme,
   * and no row of that window earlier in time order has the same value.
   */
  lemma RepresentativesAreWindowExtremes(anomalies: seq<Observation>, window: int, step: int, pick: Pick, c: Choice)
    requires step > 0
    requires c in Selection(anomalies, window, step, pick)
    ensures anomalies != [] && c.index < |anomalies|
    ensures IsWindowStart(ByTime(anomalies)[0].ds, step, c.start)
    ensures c.start + window <= ByTime(anomalies)[|anomalies| - 1].ds
    ensures InWindow(ByTime(anomalies)[c.index], c.start, c.start + window)
    ensures forall o | o in anomalies && InWindow(o, c.start, c.start + window) :: !Beats(pick, o.y, ByTime(anomalies)[c.index].y)
    ensures forall i | 0 <= i < c.index && InWindow(ByTime(anomalies)[i], c.start, c.start + window) ::
      ByTime(anomalies)[i].y != ByTime(anomalies)[c.index].y
  {
    var sorted := ByTime(anomalies);
    ChoiceOfSelection(anomalies, window, step, pick, c);
    ByTimeSortsRows(anomalies);
    forall o | o in anomalies && InWindow(o, c.start, c.start + window)
      ensures !Beats(pick, o.y, sorted[c.index].y)
    {
      assert o in multiset(sorted);
      var m :| 0 <= m < |sorted| && sorted[m] == o;
    }
  }

  lemma ChoiceOfSelection(anomalies: seq<Observation>, window: int, step: int, pick: Pick, c: Choice)
    requires step > 0
    requires c in Selection(anomalies, window, step, pick)
    ensures anomalies != []
    ensures SweptChoice(ByTime(anomalies), ByTime(anomalies)[0].ds, ByTime(anomalies)[|anomalies| - 1].ds, window, step, pick, c)
  {
    var sorted := ByTime(anomalies);
    SweepSound(sorted, sorted[0].ds, sorted[|sorted| - 1].ds, window, step, pick);
  }

  /**
   * Every evaluated window that holds an anomaly adds a choice: the
   * `m`-th window from the earliest anomaly, when it ends by the latest one
   * and contains `o`, has its representative.
   */
  lemma EveryOccupiedWindowSelects(anomalies: seq<Observation>, window: int, step: int, pick: Pick, m: nat, o: Observation)
    requires step > 0
    requires o in anomalies
    requires WindowStart(ByTime(anomalies)[0].ds, step, m) + window <= ByTime(anomalies)[|anomalies| - 1].ds
    requires InWindow(o, WindowStart(ByTime(anomalies)[0].ds, step, m), WindowStart(ByTime(anomalies)[0].ds, step, m) + window)
    ensures exists c | c in Selection(anomalies, window, step, pick) :: c.start == WindowStart(ByTime(anomalies)[0].ds, step, m)
  {
    var sorted := ByTime(anomalies);
    ByTimeSortsRows(anomalies);
    assert o in multiset(sorted);
    var i :| 0 <= i < |sorted| && sorted[i] == o;
    SweepComplete(sorted, sorted[0].ds, sorted[|sorted| - 1].ds, window, step, pick, m, i);
  }

  /**
   * Nothing is de-duplicated: with anomalies at minutes 0, 30 and 70 and a
   * one-hour window, the windows starting at minutes 0, 5 and 10 all keep
   * the row at minute 30.
   */
  lemma OverlappingWindowsRepeatRows()
    ensures var a := Observation(0, 1.0, 0.0, 0.0, 0.5);
      var b := Observation(30, 9.0, 0.0, 0.0, 0.5);
      var c := Observation(70, 1.0, 0.0, 0.0, 0.5);
      Representatives([a, b, c], 60, StepMinutes, Max) == [b, b, b]
  {
    var a := Observation(0, 1.0, 0.0, 0.0, 0.5);
    var b := Observation(30, 9.0, 0.0, 0.0, 0.5);
    var c := Observation(70, 1.0, 0.0, 0.0, 0.5);
    var rows := [a, b, c];
    NotLaterIsTotalPreorder();
    assert Sorting.Sort([a], NotLater) == [a];
    assert Sorting.Sort([a, b], NotLater) == [a, b] by {
      assert [a, b][..1] == [a];
    }
    assert ByTime(rows) == rows by {
      assert rows[..2] == [a, b];
    }
    assert BestIndex(rows, 0, 60, Max, 3) == Some(1);
    assert BestIndex(rows, 5, 65, Max, 3) == Some(1);
    assert BestIndex(rows, 10, 70, Max, 3) == Some(1);
    assert Sweep(rows, 15, 70, 60, StepMinutes, Max) == [];
    assert Sweep(rows, 0, 70, 60, StepMinutes, Max) == [Choice(0, 1), Choice(5, 1), Choice(10, 1)];
  }
}
