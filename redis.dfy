/**
 * The Redis metrics report of redis-script-5.py: for every Redis instance
 * and each of the metrics UsedMemory and ServerLoad, one row holding the
 * peak value over the last day and the first time it was reached, shown
 * in a readable byte unit for UsedMemory; rows of "N/A" when there is no
 * data and of "Error" or "JSON Error" when the CLI call or its output fails.
 */
module RedisMetrics {
  import opened Wrappers

  function Abs(x: real): real
  {
    if x < 0.0 then -x else x
  }

  /** 1024 to the power `k`. */
  function Pow1024(k: nat): (p: real)
    ensures p >= 1.0
  {
    if k == 0 then 1.0 else 1024.0 * Pow1024(k - 1)
  }

  /** The units of `bytes_to_human_readable`, the last one taken when none of the others fits. */
  const Units: seq<string> := ["B", "KB", "MB", "GB", "TB"]

  /** The index of the first unit at which the value, divided by 1024 per step, is below 1024 in size. */
  function UnitFrom(x: real, k: nat): (i: nat)
    requires k <= 4
    ensures k <= i <= 4
    decreases 4 - k
  {
    if k == 4 then 4
    else if Abs(x / Pow1024(k)) < 1024.0 then k
    else UnitFrom(x, k + 1)
  }

  function UnitIndex(x: real): nat
  {
    UnitFrom(x, 0)
  }

  /** A byte count as shown: the magnitude (before `:.2f` rounding) and its unit. */
  datatype HumanSize = NotAvailable | Sized(magnitude: real, unit: string)

  /** What `bytes_to_human_readable` shows for a number. */
  function HumanReadable(x: real): HumanSize
  {
    Sized(x / Pow1024(UnitIndex(x)), Units[UnitIndex(x)])
  }

  lemma DivideOnce(x: real, k: nat)
    ensures x / Pow1024(k) / 1024.0 == x / Pow1024(k + 1)
  {
    var p := Pow1024(k);
    assert Pow1024(k + 1) == 1024.0 * p;
    assert (x / p / 1024.0) * (1024.0 * p) == x;
  }

  /**
   * `bytes_to_human_readable`, up to the formatting of the number: None
   * gives "N/A"; otherwise the value is divided by 1024 until it is below
   * 1024 in size, at most four times.
   */
  method BytesToHumanReadable(bytes: Option<real>) returns (h: HumanSize)
    ensures bytes.None? ==> h == NotAvailable
    ensures bytes.Some? ==> h == HumanReadable(bytes.value)
  {
    if bytes.None? {
      return NotAvailable;
    }
    var value := bytes.value;
    var units := ["B", "KB", "MB", "GB"];
    for k := 0 to 4
      invariant value == bytes.value / Pow1024(k)
      invariant UnitIndex(bytes.value) == UnitFrom(bytes.value, k)
    {
      if Abs(value) < 1024.0 {
        return Sized(value, units[k]);
      }
      DivideOnce(bytes.value, k);
      value := value / 1024.0;
    }
    return Sized(value, "TB");
  }

  /**
   * The unit is the first that fits: at every earlier unit the value was
   * at least 1024 in size, and at the chosen one (other than TB) it is below.
   */
  lemma {:induction false} UnitFromIsFirstFit(x: real, k: nat)
    requires k <= 4
    ensures forall j | k <= j < UnitFrom(x, k) :: Abs(x / Pow1024(j)) >= 1024.0
    ensures UnitFrom(x, k) < 4 ==> Abs(x / Pow1024(UnitFrom(x, k))) < 1024.0
    decreases 4 - k
  {
    if k < 4 && Abs(x / Pow1024(k)) >= 1024.0 {
      UnitFromIsFirstFit(x, k + 1);
    }
  }

  /**
   * The magnitude shown is below 1024 in size, except in TB, and at least 1
   * in size, except in B.
   */
  lemma MagnitudeInRange(x: real)
    ensures var k := UnitIndex(x);
      && (k < 4 ==> Abs(x / Pow1024(k)) < 1024.0)
      && (k > 0 ==> Abs(x / Pow1024(k)) >= 1.0)
      && (forall j | 0 <= j < k :: Abs(x / Pow1024(j)) >= 1024.0)
  {
    UnitFromIsFirstFit(x, 0);
    var k := UnitIndex(x);
    if k > 0 {
      DivideOnce(x, k - 1);
      var y := x / Pow1024(k - 1);
      assert Abs(y) >= 1024.0;
      assert Abs(y / 1024.0) == Abs(y) / 1024.0;
    }
  }

  /** A point of a metric's time series: its timestamp and its maximum, if any. */
  datatype DataPoint = DataPoint(timestamp: string, value: Option<real>)

  /** `[dp for dp in data_points if dp[1] is not None]`. */
  function ValidPoints(points: seq<DataPoint>): (valid: seq<DataPoint>)
    ensures |valid| <= |points|
    ensures forall i | 0 <= i < |valid| :: valid[i].value.Some?
  {
    if points == [] then []
    else (if points[0].value.Some? then [points[0]] else []) + ValidPoints(points[1..])
  }

  /** The points kept are exactly the points with a value. */
  lemma {:induction false} ValidPointsMembers(points: seq<DataPoint>, p: DataPoint)
    ensures p in ValidPoints(points) <==> p in points && p.value.Some?
  {
    if points != [] {
      ValidPointsMembers(points[1..], p);
      assert points == [points[0]] + points[1..];
    }
  }

  /** `max(dp[1] for dp in valid_data_points)`. */
  function MaxValue(valid: seq<DataPoint>): real
    requires valid != []
    requires forall i | 0 <= i < |valid| :: valid[i].value.Some?
  {
    if |valid| == 1 then valid[0].value.value
    else
      var rest := MaxValue(valid[1..]);
      if valid[0].value.value >= rest then valid[0].value.value else rest
  }

  /** The maximum is the value of some point, and no point's value is larger. */
  lemma {:induction false} MaxValueIsMaximum(valid: seq<DataPoint>)
    requires valid != []
    requires forall i | 0 <= i < |valid| :: valid[i].value.Some?
    ensures exists i | 0 <= i < |valid| :: valid[i].value == Some(MaxValue(valid))
    ensures forall i | 0 <= i < |valid| :: valid[i].value.value <= MaxValue(valid)
  {
    if |valid| > 1 {
      MaxValueIsMaximum(valid[1..]);
      var i :| 0 <= i < |valid[1..]| && valid[1..][i].value == Some(MaxValue(valid[1..]));
      assert valid[i + 1].value == Some(MaxValue(valid[1..]));
    } else {
      assert valid[0].value == Some(MaxValue(valid));
    }
  }

  /** The position of the first point whose value is `m`. */
  function FirstIndexOf(points: seq<DataPoint>, m: real): (r: Option<nat>)
    ensures r.Some? ==> r.value < |points| && points[r.value].value == Some(m)
    ensures r.Some? ==> forall j | 0 <= j < r.value :: points[j].value != Some(m)
    ensures r.None? ==> forall j | 0 <= j < |points| :: points[j].value != Some(m)
  {
    if points == [] then None
    else if points[0].value == Some(m) then Some(0)
    else
      match FirstIndexOf(points[1..], m)
      case None => None
      case Some(i) => Some(i + 1)
  }

  /**
   * Looking for `m` among the valid points finds the same point as looking
   * among all of them: a point without a value never equals a number.
   */
  lemma {:induction false} FirstAmongValid(points: seq<DataPoint>, m: real)
    ensures FirstIndexOf(ValidPoints(points), m).Some? <==> FirstIndexOf(points, m).Some?
    ensures FirstIndexOf(points, m).Some? ==>
      ValidPoints(points)[FirstIndexOf(ValidPoints(points), m).value] == points[FirstIndexOf(points, m).value]
  {
    if points != [] && points[0].value != Some(m) {
      FirstAmongValid(points[1..], m);
      var head: seq<DataPoint> := if points[0].value.Some? then [points[0]] else [];
      assert ValidPoints(points) == head + ValidPoints(points[1..]);
      if points[0].value.Some? {
        assert ValidPoints(points)[1..] == ValidPoints(points[1..]);
      }
    }
  }

  /** The maximum over the points with a value and the timestamp of the first point reaching it. */
  function Peak(points: seq<DataPoint>): Option<(string, real)>
  {
    var valid := ValidPoints(points);
    if valid == [] then None
    else
      var m := MaxValue(valid);
      match FirstIndexOf(valid, m)
      case Some(i) => Some((valid[i].timestamp, m))
      case None => None
  }

  /**
   * There is a peak exactly when some point has a value; it is the largest
   * value, and its timestamp is that of the first point holding it.
   */
  lemma PeakIsFirstMaximum(points: seq<DataPoint>)
    ensures Peak(points).None? <==> forall i | 0 <= i < |points| :: points[i].value.None?
    ensures Peak(points).Some? ==>
      var (t, m) := Peak(points).value;
      && (forall j | 0 <= j < |points| && points[j].value.Some? :: points[j].value.value <= m)
      && FirstIndexOf(points, m).Some?
      && points[FirstIndexOf(points, m).value].timestamp == t
  {
    var valid := ValidPoints(points);
    forall i | 0 <= i < |points| && points[i].value.Some?
      ensures points[i] in valid
    {
      ValidPointsMembers(points, points[i]);
    }
    if valid != [] {
      var m := MaxValue(valid);
      MaxValueIsMaximum(valid);
      var i :| 0 <= i < |valid| && valid[i].value == Some(m);
      assert FirstIndexOf(valid, m).Some?;
      FirstAmongValid(points, m);
      forall j | 0 <= j < |points| && points[j].value.Some?
        ensures points[j].value.value <= m
      {
        var k :| 0 <= k < |valid| && valid[k] == points[j];
      }
    }
  }

  /** The two metrics, in the order the script asks for them. */
  const UsedMemory := "UsedMemory"
  const ServerLoad := "ServerLoad"
  const Metrics: seq<string> := [UsedMemory, ServerLoad]

  /** The window of every row, in hours. */
  const DurationHours := 24

  /** The outcome of `az monitor metrics list` for one metric. */
  datatype Fetch =
    | CliFailed                    // CalledProcessError
    | BadJson                      // JSONDecodeError
    | Points(points: seq<DataPoint>)

  /** One Redis instance. */
  datatype Instance = Instance(subscription: string, resourceGroup: string, name: string)

  datatype Value = Number(x: real) | Readable(size: HumanSize) | Text(s: string)

  datatype MetricRow = MetricRow(
    instance: Instance, metric: string, hours: int, timestamp: string, value: Value, unit: string)

  /** `"%"` for ServerLoad and `"Human Readable"` for any other metric. */
  function UnitLabel(metric: string): string
  {
    if metric == ServerLoad then "%" else "Human Readable"
  }

  /** The value shown for a peak: readable bytes for UsedMemory, the number itself otherwise. */
  function Shown(metric: string, m: real): Value
  {
    if metric == UsedMemory then Readable(HumanReadable(m)) else Number(m)
  }

  /** The row the script appends for one metric of one instance. */
  function RowFor(instance: Instance, metric: string, fetched: Fetch): MetricRow
  {
    match fetched
    case CliFailed => MetricRow(instance, metric, DurationHours, "N/A", Text("Error"), "N/A")
    case BadJson => MetricRow(instance, metric, DurationHours, "N/A", Text("JSON Error"), "N/A")
    case Points(points) =>
      match Peak(points)
      case None => MetricRow(instance, metric, DurationHours, "N/A", Text("N/A"), UnitLabel(metric))
      case Some((t, m)) => MetricRow(instance, metric, DurationHours, t, Shown(metric, m), UnitLabel(metric))
  }

  /** One pass of the metric loop. */
  method MetricRowOf(instance: Instance, metric: string, fetched: Fetch) returns (row: MetricRow)
    ensures row == RowFor(instance, metric, fetched)
  {
    match fetched
    case CliFailed =>
      row := MetricRow(instance, metric, DurationHours, "N/A", Text("Error"), "N/A");
    case BadJson =>
      row := MetricRow(instance, metric, DurationHours, "N/A", Text("JSON Error"), "N/A");
    case Points(points) =>
      var peak := Peak(points);
      if peak.None? {
        row := MetricRow(instance, metric, DurationHours, "N/A", Text("N/A"), UnitLabel(metric));
      } else {
        var (timestamp, maxValue) := peak.value;
        var value := Number(maxValue);
        if metric == UsedMemory {
          var readable := BytesToHumanReadable(Some(maxValue));
          value := Readable(readable);
        }
        row := MetricRow(instance, metric, DurationHours, timestamp, value, UnitLabel(metric));
      }
  }

  /**
   * A row shows "N/A" exactly when the series has no point with a value,
   * and otherwise the peak and the first time it was reached.
   */
  lemma RowForPoints(instance: Instance, metric: string, points: seq<DataPoint>)
    ensures RowFor(instance, metric, Points(points)).value == Text("N/A") <==>
      forall i | 0 <= i < |points| :: points[i].value.None?
    ensures RowFor(instance, metric, Points(points)).unit == UnitLabel(metric)
    ensures Peak(points).Some? ==>
      && RowFor(instance, metric, Points(points)).timestamp == Peak(points).value.0
      && (metric == ServerLoad ==> RowFor(instance, metric, Points(points)).value == Number(Peak(points).value.1))
  {
    PeakIsFirstMaximum(points);
  }

  /** The rows of one instance, one per metric in order. */
  function InstanceRows(instance: Instance, fetch: (Instance, string) -> Fetch): seq<MetricRow>
  {
    seq(|Metrics|, j requires 0 <= j < |Metrics| => RowFor(instance, Metrics[j], fetch(instance, Metrics[j])))
  }

  /** The rows of every instance, in order. */
  function AllRows(instances: seq<Instance>, fetch: (Instance, string) -> Fetch): (rows: seq<MetricRow>)
    ensures |rows| == |Metrics| * |instances|
  {
    if instances == [] then []
    else AllRows(instances[..|instances| - 1], fetch) + InstanceRows(instances[|instances| - 1], fetch)
  }

  /**
   * The collection loop: for each instance and each metric, the row for
   * what the CLI returned. `fetch` stands for the CLI call over the last
   * 24 hours.
   */
  method CollectMetrics(instances: seq<Instance>, fetch: (Instance, string) -> Fetch) returns (rows: seq<MetricRow>)
    ensures rows == AllRows(instances, fetch)
  {
    rows := [];
    for i := 0 to |instances|
      invariant rows == AllRows(instances[..i], fetch)
    {
      var instance := instances[i];
      assert instances[..i + 1][..i] == instances[..i];
      var done := rows;
      for j := 0 to |Metrics|
        invariant rows == done + InstanceRows(instance, fetch)[..j]
      {
        var metric := Metrics[j];
        var row := MetricRowOf(instance, metric, fetch(instance, metric));
        assert InstanceRows(instance, fetch)[..j + 1] == InstanceRows(instance, fetch)[..j] + [row];
        rows := rows + [row];
      }
      assert InstanceRows(instance, fetch)[..|Metrics|] == InstanceRows(instance, fetch);
    }
    assert instances[..|instances|] == instances;
  }

  /** Every instance gets exactly one row per metric, in order, whatever the CLI returned. */
  lemma {:induction false} RowsPerInstance(instances: seq<Instance>, fetch: (Instance, string) -> Fetch, i: nat, j: nat)
    requires i < |instances| && j < |Metrics|
    ensures AllRows(instances, fetch)[|Metrics| * i + j] == RowFor(instances[i], Metrics[j], fetch(instances[i], Metrics[j]))
  {
    var init := instances[..|instances| - 1];
    if i < |instances| - 1 {
      RowsPerInstance(init, fetch, i, j);
      assert init[i] == instances[i];
    }
  }
}
