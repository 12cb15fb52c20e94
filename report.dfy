/**
 * The combined anomalies sheet of both anomaly scripts: per event hub and
 * metric, the spikes and drops of the look-back period (or one placeholder
 * row when there are none), in anomaliDetection-19-test.py followed by the
 * rolling-window representatives, all sorted by event hub, metric name and
 * timestamp.
 */
module AnomalyReport {
  import opened Wrappers
  import opened Strings
  import opened AnomalySelection
  import Sorting

  /** The `Anomaly_Type` column. */
  datatype Kind = Spike | Drop

  /**
   * One row of the sheet. A placeholder row has no observation (its `ds`,
   * `y` and band are None) and a note; a measured row has an observation and
   * no note.
   */
  datatype ReportRow = ReportRow(obs: Option<Observation>, kind: Kind, eventHub: string, metric: string, note: Option<string>)

  /** One `(entity_name, metric_name)` frame merged with its forecast band. */
  datatype Series = Series(entity: string, metric: string, rows: seq<Observation>)

  /** One data point of a metric time series; `total` may be missing. */
  datatype DataPoint = DataPoint(timestamp: int, total: Option<real>)

  /**
   * `data_point.total or 0`: a missing total becomes 0; a zero total is
   * falsy too, and `or` then gives 0, which is the total itself.
   */
  function TotalOrZero(p: DataPoint): real
  {
    match p.total
    case None => 0.0
    case Some(t) => t
  }

  /** The `(ds, y)` pairs of a series, in the order of its data points. */
  function Samples(points: seq<DataPoint>): (samples: seq<(int, real)>)
    ensures |samples| == |points|
  {
    seq(|points|, i requires 0 <= i < |points| => (points[i].timestamp, TotalOrZero(points[i])))
  }

  /**
   * Every data point becomes one sample with its own timestamp; the value is
   * the recorded total, or 0 exactly when the total is missing (or zero).
   */
  lemma SamplesKeepTotals(points: seq<DataPoint>, i: nat)
    requires i < |points|
    ensures Samples(points)[i].0 == points[i].timestamp
    ensures points[i].total.Some? ==> Samples(points)[i].1 == points[i].total.value
    ensures Samples(points)[i].1 == 0.0 <==> points[i].total.None? || points[i].total == Some(0.0)
  {
  }

  /** The note of the placeholder row of each kind. */
  function NoneFoundNote(kind: Kind): string
  {
    if kind == Spike then "No spikes found" else "No drops found"
  }

  /** The placeholder row for an entity and metric without anomalies of `kind`. */
  function Placeholder(kind: Kind, hub: string, metric: string): ReportRow
  {
    ReportRow(None, kind, hub, metric, Some(NoneFoundNote(kind)))
  }

  /** `frame.assign(Anomaly_Type=kind, Event_Hub=hub, Metric_Name=metric)`. */
  function Tagged(found: seq<Observation>, kind: Kind, hub: string, metric: string): (rows: seq<ReportRow>)
    ensures |rows| == |found|
    ensures forall i | 0 <= i < |found| :: rows[i] == ReportRow(Some(found[i]), kind, hub, metric, None)
  {
    seq(|found|, i requires 0 <= i < |found| => ReportRow(Some(found[i]), kind, hub, metric, None))
  }

  /** The anomalies found of one kind, or a single placeholder when there are none. */
  function FoundOrPlaceholder(found: seq<Observation>, kind: Kind, hub: string, metric: string): seq<ReportRow>
  {
    if found == [] then [Placeholder(kind, hub, metric)] else Tagged(found, kind, hub, metric)
  }

  /** The spikes and the drops of the look-back period, each kind or its placeholder. */
  function Found(s: Series, end: int, lookbackHours: int): seq<ReportRow>
  {
    var recent := RecentRows(s.rows, end, lookbackHours);
    FoundOrPlaceholder(Spikes(recent), Spike, s.entity, s.metric)
      + FoundOrPlaceholder(Drops(recent), Drop, s.entity, s.metric)
  }

  /** The rolling-window representatives of the spikes (largest) and of the drops (smallest). */
  function RepresentativeRows(s: Series, end: int, lookbackHours: int): seq<ReportRow>
  {
    var recent := RecentRows(s.rows, end, lookbackHours);
    Tagged(Representatives(Spikes(recent), WindowHours * 60, StepMinutes, Max), Spike, s.entity, s.metric)
      + Tagged(Representatives(Drops(recent), WindowHours * 60, StepMinutes, Min), Drop, s.entity, s.metric)
  }

  /**
   * What one frame adds to `all_anomalies`: nothing for an empty frame;
   * otherwise its spikes (or a placeholder) and its drops (or a placeholder)
   * among the rows of the last `lookbackHours` hours before `end`, and, with
   * `withRepresentatives`, the rolling-window representatives of each.
   */
  function Block(s: Series, end: int, lookbackHours: int, withRepresentatives: bool): seq<ReportRow>
  {
    if s.rows == [] then []
    else if withRepresentatives then Found(s, end, lookbackHours) + RepresentativeRows(s, end, lookbackHours)
    else Found(s, end, lookbackHours)
  }

  /** The blocks of all frames, in frame order. */
  function Blocks(series: seq<Series>, end: int, lookbackHours: int, withRepresentatives: bool): seq<ReportRow>
  {
    if series == [] then []
    else
      Blocks(series[..|series| - 1], end, lookbackHours, withRepresentatives)
        + Block(series[|series| - 1], end, lookbackHours, withRepresentatives)
  }

  /** Appends the spikes, or a placeholder, then the drops, or a placeholder. */
  method AppendFound(all: seq<ReportRow>, s: Series, end: int, lookbackHours: int)
    returns (all': seq<ReportRow>)
    ensures all' == all + Found(s, end, lookbackHours)
  {
    var recent := RecentRows(s.rows, end, lookbackHours);
    var spikes, drops := Spikes(recent), Drops(recent);
    var spikeRows, dropRows;
    if spikes != [] {
      spikeRows := Tagged(spikes, Spike, s.entity, s.metric);
    } else {
      spikeRows := [Placeholder(Spike, s.entity, s.metric)];
    }
    if drops != [] {
      dropRows := Tagged(drops, Drop, s.entity, s.metric);
    } else {
      dropRows := [Placeholder(Drop, s.entity, s.metric)];
    }
    all' := all + spikeRows + dropRows;
  }

  /** Appends the representatives of the spikes, then those of the drops, when there are any. */
  method AppendChosen(all: seq<ReportRow>, s: Series, end: int, lookbackHours: int)
    returns (all': seq<ReportRow>)
    ensures all' == all + RepresentativeRows(s, end, lookbackHours)
  {
    var recent := RecentRows(s.rows, end, lookbackHours);
    var spikes, drops := Spikes(recent), Drops(recent);
    all' := all;
    var spikesSelected := SelectByRollingWindow(spikes, WindowHours, Max);
    if spikesSelected != [] {
      all' := all' + Tagged(spikesSelected, Spike, s.entity, s.metric);
    }
    ghost var withSpikes := all';
    assert withSpikes == all + Tagged(spikesSelected, Spike, s.entity, s.metric);
    var dropsSelected := SelectByRollingWindow(drops, WindowHours, Min);
    if dropsSelected != [] {
      all' := all' + Tagged(dropsSelected, Drop, s.entity, s.metric);
    }
    assert all' == withSpikes + Tagged(dropsSelected, Drop, s.entity, s.metric);
    ConcatAssoc(all, Tagged(spikesSelected, Spike, s.entity, s.metric), Tagged(dropsSelected, Drop, s.entity, s.metric));
  }

  /** The body of the loop over `entity_dfs`: appends what one frame adds. */
  method AppendBlock(all: seq<ReportRow>, s: Series, end: int, lookbackHours: int, withRepresentatives: bool)
    returns (all': seq<ReportRow>)
    ensures all' == all + Block(s, end, lookbackHours, withRepresentatives)
  {
    all' := all;
    if s.rows == [] {
      assert Block(s, end, lookbackHours, withRepresentatives) == [];
      assert all + [] == all;
    } else {
      ghost var found := Found(s, end, lookbackHours);
      all' := AppendFound(all', s, end, lookbackHours);
      if withRepresentatives {
        ghost var chosen := RepresentativeRows(s, end, lookbackHours);
        all' := AppendChosen(all', s, end, lookbackHours);
        assert Block(s, end, lookbackHours, withRepresentatives) == found + chosen;
        ConcatAssoc(all, found, chosen);
      } else {
        assert Block(s, end, lookbackHours, withRepresentatives) == found;
      }
    }
  }

  /**
   * The loop over `entity_dfs` that fills `all_anomalies`, one frame at a
   * time (anomalyDetection-16.py with a 24-hour look-back and no
   * representatives; anomaliDetection-19-test.py with a 48-hour look-back
   * and the representatives).
   */
  method AssembleReport(series: seq<Series>, end: int, lookbackHours: int, withRepresentatives: bool)
    returns (all: seq<ReportRow>)
    ensures all == Blocks(series, end, lookbackHours, withRepresentatives)
  {
    all := [];
    for i := 0 to |series|
      invariant all == Blocks(series[..i], end, lookbackHours, withRepresentatives)
    {
      assert series[..i + 1][..i] == series[..i];
      all := AppendBlock(all, series[i], end, lookbackHours, withRepresentatives);
    }
    assert series[..|series|] == series;
  }

  // ---------------------------------------------------------------------
  // What the sheet holds
  // ---------------------------------------------------------------------

  /** `o` is an anomaly of `kind`: a spike above the band, or a drop below it. */
  predicate IsKind(kind: Kind, o: Observation)
  {
    if kind == Spike then IsSpike(o) else IsDrop(o)
  }

  /** `o` falls in the look-back period. */
  predicate IsRecent(o: Observation, end: int, lookbackHours: int)
  {
    o.ds >= end - lookbackHours * 60
  }

  /** The spikes (drops) of the look-back period are exactly the recent rows above (below) the band. */
  lemma DetectedAreRecentAnomalies(rows: seq<Observation>, end: int, lookbackHours: int, o: Observation)
    ensures o in Spikes(RecentRows(rows, end, lookbackHours)) <==> o in rows && IsRecent(o, end, lookbackHours) && IsSpike(o)
    ensures o in Drops(RecentRows(rows, end, lookbackHours)) <==> o in rows && IsRecent(o, end, lookbackHours) && IsDrop(o)
  {
    var recent := RecentRows(rows, end, lookbackHours);
    RecentRowsWindow(rows, end, lookbackHours, o);
    WhereCounts(recent, IsSpike);
    WhereCounts(recent, IsDrop);
    assert o in Spikes(recent) <==> o in multiset(Spikes(recent));
    assert o in Drops(recent) <==> o in multiset(Drops(recent));
    assert o in recent <==> o in multiset(recent);
  }

  lemma TaggedRow(found: seq<Observation>, kind: Kind, hub: string, metric: string, r: ReportRow)
    requires r in Tagged(found, kind, hub, metric)
    ensures r.obs.Some? && r.obs.value in found && r.note.None?
    ensures r.kind == kind && r.eventHub == hub && r.metric == metric
  {
    var rows := Tagged(found, kind, hub, metric);
    var i :| 0 <= i < |rows| && rows[i] == r;
  }

  /**
   * Every row a frame adds carries the frame's event hub and metric. A
   * measured row is a recent row of the frame lying above the band (spike)
   * or below it (drop), with no note; any other row is the placeholder of
   * its kind.
   */
  lemma BlockRowsAreSound(s: Series, end: int, lookbackHours: int, withRepresentatives: bool, r: ReportRow)
    requires r in Block(s, end, lookbackHours, withRepresentatives)
    ensures r.eventHub == s.entity && r.metric == s.metric
    ensures r.obs.None? ==> r == Placeholder(r.kind, s.entity, s.metric)
    ensures r.obs.Some? ==> && r.note.None?
                            && r.obs.value in s.rows
                            && IsRecent(r.obs.value, end, lookbackHours)
                            && IsKind(r.kind, r.obs.value)
  {
    if r in Found(s, end, lookbackHours) {
      FoundRowsAreSound(s, end, lookbackHours, r);
    } else {
      assert withRepresentatives && r in RepresentativeRows(s, end, lookbackHours);
      RepresentativeRowsAreSound(s, end, lookbackHours, r);
    }
  }

  /** What `BlockRowsAreSound` states of one row. */
  predicate SoundRow(s: Series, end: int, lookbackHours: int, r: ReportRow)
  {
    && r.eventHub == s.entity && r.metric == s.metric
    && (r.obs.None? ==> r == Placeholder(r.kind, s.entity, s.metric))
    && (r.obs.Some? ==> && r.note.None?
                        && r.obs.value in s.rows
                        && IsRecent(r.obs.value, end, lookbackHours)
                        && IsKind(r.kind, r.obs.value))
  }

  lemma FoundRowsAreSound(s: Series, end: int, lookbackHours: int, r: ReportRow)
    requires r in Found(s, end, lookbackHours)
    ensures SoundRow(s, end, lookbackHours, r)
  {
    var recent := RecentRows(s.rows, end, lookbackHours);
    var spikes, drops := Spikes(recent), Drops(recent);
    if r in FoundOrPlaceholder(spikes, Spike, s.entity, s.metric) {
      if spikes != [] {
        TaggedRow(spikes, Spike, s.entity, s.metric, r);
        DetectedAreRecentAnomalies(s.rows, end, lookbackHours, r.obs.value);
      }
    } else {
      if drops != [] {
        TaggedRow(drops, Drop, s.entity, s.metric, r);
        DetectedAreRecentAnomalies(s.rows, end, lookbackHours, r.obs.value);
      }
    }
  }

  lemma RepresentativeRowsAreSound(s: Series, end: int, lookbackHours: int, r: ReportRow)
    requires r in RepresentativeRows(s, end, lookbackHours)
    ensures SoundRow(s, end, lookbackHours, r)
  {
    var recent := RecentRows(s.rows, end, lookbackHours);
    var spikes, drops := Spikes(recent), Drops(recent);
    var spikeReps := Representatives(spikes, WindowHours * 60, StepMinutes, Max);
    var dropReps := Representatives(drops, WindowHours * 60, StepMinutes, Min);
    if r in Tagged(spikeReps, Spike, s.entity, s.metric) {
      TaggedRow(spikeReps, Spike, s.entity, s.metric, r);
      RepresentativesAreAnomalies(spikes, WindowHours * 60, StepMinutes, Max);
      DetectedAreRecentAnomalies(s.rows, end, lookbackHours, r.obs.value);
    } else {
      TaggedRow(dropReps, Drop, s.entity, s.metric, r);
      RepresentativesAreAnomalies(drops, WindowHours * 60, StepMinutes, Min);
      DetectedAreRecentAnomalies(s.rows, end, lookbackHours, r.obs.value);
    }
  }

  /** Every recent spike and every recent drop of a frame is on the sheet. */
  lemma BlockHasEveryRecentAnomaly(s: Series, end: int, lookbackHours: int, withRepresentatives: bool, kind: Kind, o: Observation)
    requires o in s.rows && IsRecent(o, end, lookbackHours) && IsKind(kind, o)
    ensures ReportRow(Some(o), kind, s.entity, s.metric, None) in Block(s, end, lookbackHours, withRepresentatives)
  {
    var recent := RecentRows(s.rows, end, lookbackHours);
    var found := if kind == Spike then Spikes(recent) else Drops(recent);
    DetectedAreRecentAnomalies(s.rows, end, lookbackHours, o);
    var i :| 0 <= i < |found| && found[i] == o;
    var rows := Tagged(found, kind, s.entity, s.metric);
    assert rows[i] == ReportRow(Some(o), kind, s.entity, s.metric, None);
    assert FoundOrPlaceholder(found, kind, s.entity, s.metric) == rows;
  }

  /** How often a placeholder row occurs in what one kind contributes. */
  lemma PlaceholderCountInPart(found: seq<Observation>, kind: Kind, hub: string, metric: string, other: Kind)
    ensures multiset(FoundOrPlaceholder(found, kind, hub, metric))[Placeholder(other, hub, metric)]
      == if found == [] && kind == other then 1 else 0
  {
    var p := Placeholder(other, hub, metric);
    if found != [] {
      if p in Tagged(found, kind, hub, metric) {
        TaggedRow(found, kind, hub, metric, p);
      }
    }
  }

  lemma TaggedHasNoPlaceholder(found: seq<Observation>, kind: Kind, hub: string, metric: string, other: Kind)
    ensures multiset(Tagged(found, kind, hub, metric))[Placeholder(other, hub, metric)] == 0
  {
    var p := Placeholder(other, hub, metric);
    if p in Tagged(found, kind, hub, metric) {
      TaggedRow(found, kind, hub, metric, p);
    }
  }

  /**
   * A frame with data gets exactly one placeholder of a kind when it has no
   * recent anomaly of that kind, and none otherwise; an empty frame gets none.
   */
  lemma PlaceholderExactlyWhenNoneFound(s: Series, end: int, lookbackHours: int, withRepresentatives: bool, kind: Kind)
    ensures multiset(Block(s, end, lookbackHours, withRepresentatives))[Placeholder(kind, s.entity, s.metric)]
      == if s.rows != [] && (forall o | o in s.rows && IsRecent(o, end, lookbackHours) :: !IsKind(kind, o)) then 1 else 0
  {
    if s.rows != [] {
      var recent := RecentRows(s.rows, end, lookbackHours);
      var spikes, drops := Spikes(recent), Drops(recent);
      var found := if kind == Spike then spikes else drops;
      PlaceholderCountInPart(spikes, Spike, s.entity, s.metric, kind);
      PlaceholderCountInPart(drops, Drop, s.entity, s.metric, kind);
      TaggedHasNoPlaceholder(Representatives(spikes, WindowHours * 60, StepMinutes, Max), Spike, s.entity, s.metric, kind);
      TaggedHasNoPlaceholder(Representatives(drops, WindowHours * 60, StepMinutes, Min), Drop, s.entity, s.metric, kind);
      if found != [] {
        DetectedAreRecentAnomalies(s.rows, end, lookbackHours, found[0]);
      } else {
        forall o | o in s.rows && IsRecent(o, end, lookbackHours)
          ensures !IsKind(kind, o)
        {
          DetectedAreRecentAnomalies(s.rows, end, lookbackHours, o);
        }
      }
    }
  }

  /** The rows of all frames are the rows of each frame, and only those. */
  lemma {:induction false} BlocksRows(series: seq<Series>, end: int, lookbackHours: int, withRepresentatives: bool, r: ReportRow)
    ensures r in Blocks(series, end, lookbackHours, withRepresentatives)
      <==> exists i | 0 <= i < |series| :: r in Block(series[i], end, lookbackHours, withRepresentatives)
  {
    if series != [] {
      var init := series[..|series| - 1];
      BlocksRows(init, end, lookbackHours, withRepresentatives, r);
      if r in Block(series[|series| - 1], end, lookbackHours, withRepresentatives) {
        assert 0 <= |series| - 1 < |series|;
      }
      if exists i | 0 <= i < |series| :: r in Block(series[i], end, lookbackHours, withRepresentatives) {
        var i :| 0 <= i < |series| && r in Block(series[i], end, lookbackHours, withRepresentatives);
        if i < |series| - 1 {
          assert series[i] == init[i];
        }
      }
    }
  }

  /**
   * `all_anomalies` stays empty, and the sheet gets the "no anomalies"
   * message, exactly when every frame is empty.
   */
  lemma {:induction false} NoRowsIffNoData(series: seq<Series>, end: int, lookbackHours: int, withRepresentatives: bool)
    ensures Blocks(series, end, lookbackHours, withRepresentatives) == []
      <==> forall i | 0 <= i < |series| :: series[i].rows == []
  {
    if series != [] {
      var init := series[..|series| - 1];
      var last := series[|series| - 1];
      NoRowsIffNoData(init, end, lookbackHours, withRepresentatives);
      BlockEmptyIffNoData(last, end, lookbackHours, withRepresentatives);
      assert forall i | 0 <= i < |series| - 1 :: series[i] == init[i];
    }
  }

  /** A frame adds at least a row for each kind when it has data, and nothing otherwise. */
  lemma BlockEmptyIffNoData(s: Series, end: int, lookbackHours: int, withRepresentatives: bool)
    ensures s.rows != [] ==> |Block(s, end, lookbackHours, withRepresentatives)| >= 2
    ensures s.rows == [] ==> Block(s, end, lookbackHours, withRepresentatives) == []
  {
    if s.rows != [] {
      var recent := RecentRows(s.rows, end, lookbackHours);
      assert |FoundOrPlaceholder(Spikes(recent), Spike, s.entity, s.metric)| >= 1;
      assert |FoundOrPlaceholder(Drops(recent), Drop, s.entity, s.metric)| >= 1;
    }
  }

  /** The sheet: the sorted rows, or the message when there are none. */
  datatype Sheet = AnomalyRows(rows: seq<ReportRow>) | NoAnomaliesMessage

  /** A missing timestamp sorts after every present one (`na_position='last'`). */
  predicate TimeLe(a: Option<int>, b: Option<int>)
  {
    if a.None? then b.None? else b.None? || a.value <= b.value
  }

  function Timestamp(r: ReportRow): Option<int>
  {
    if r.obs.Some? then Some(r.obs.value.ds) else None
  }

  /** The order of `sort_values(['Event_Hub', 'Metric Name', 'Timestamp (IST)'])`. */
  predicate RowLe(r: ReportRow, s: ReportRow)
  {
    if r.eventHub != s.eventHub then StrLe(r.eventHub, s.eventHub)
    else if r.metric != s.metric then StrLe(r.metric, s.metric)
    else TimeLe(Timestamp(r), Timestamp(s))
  }

  lemma RowLeIsTotalPreorder()
    ensures Sorting.TotalPreorder(RowLe)
  {
    forall r, s
      ensures RowLe(r, s) || RowLe(s, r)
    {
      StrLeTotal(r.eventHub, s.eventHub);
      StrLeTotal(r.metric, s.metric);
    }
    forall r, s, t | RowLe(r, s) && RowLe(s, t)
      ensures RowLe(r, t)
    {
      RowLeTransitive(r, s, t);
    }
  }

  lemma RowLeTransitive(r: ReportRow, s: ReportRow, t: ReportRow)
    requires RowLe(r, s) && RowLe(s, t)
    ensures RowLe(r, t)
  {
    StrLeTotal(r.eventHub, s.eventHub);
    StrLeTotal(s.eventHub, t.eventHub);
    StrLeTotal(r.eventHub, t.eventHub);
    StrLeTotal(r.metric, s.metric);
    StrLeTotal(s.metric, t.metric);
    StrLeTotal(r.metric, t.metric);
    if r.eventHub != s.eventHub && s.eventHub != t.eventHub {
      StrLeTransitive(r.eventHub, s.eventHub, t.eventHub);
    } else if r.eventHub == s.eventHub && s.eventHub == t.eventHub
      && r.metric != s.metric && s.metric != t.metric {
      StrLeTransitive(r.metric, s.metric, t.metric);
    }
  }

  /** `if all_anomalies:` write the combined rows sorted, otherwise the message. */
  function AnomaliesSheet(all: seq<ReportRow>): Sheet
  {
    if all == [] then NoAnomaliesMessage else AnomalyRows(Sorting.Sort(all, RowLe))
  }

  /**
   * The sheet lists exactly the combined rows, ordered by event hub, then
   * metric name, then timestamp with placeholder rows last.
   */
  lemma SheetIsSortedCombination(all: seq<ReportRow>)
    ensures AnomaliesSheet(all).NoAnomaliesMessage? <==> all == []
    ensures AnomaliesSheet(all).AnomalyRows? ==>
      && Sorting.SortedBy(AnomaliesSheet(all).rows, RowLe)
      && multiset(AnomaliesSheet(all).rows) == multiset(all)
  {
    RowLeIsTotalPreorder();
    Sorting.SortSorts(all, RowLe);
  }
}
