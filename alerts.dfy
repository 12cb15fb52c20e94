/**
 * `get_fired_alerts` of getAlertscript.py: the alerts of a subscription
 * whose fire time lies in a window (by default the last hour), whose
 * monitor condition is Fired and whose state is New, written one row each
 * under a header row, with the fire time shown at the fixed IST offset.
 * Times are seconds since the epoch. Reading a fire time is the parameter
 * `parseTime`, which stands for `parse_azure_time`, that is
 * `AzureTime.ParseAzureTime(_, fromIso)` for the `datetime.fromisoformat`
 * of the run.
 */
module FiredAlerts {
  import opened Wrappers
  import opened Aborting
  import opened AzureTime

  const OneHour := 3600

  /** UTC+5:30, in seconds. */
  const IstOffset := 5 * 3600 + 30 * 60

  /** The `essentials` of an alert: each field as `.get` returns it. */
  datatype Alert = Alert(
    startDateTime: Option<string>,
    monitorCondition: Option<string>,
    alertState: Option<string>,
    alertRule: Option<string>)

  datatype SheetRow =
    | Header
    | AlertRow(name: Option<string>, condition: Option<string>, istSeconds: int)

  /** The search window: `end` defaults to now and `start` to an hour before `end`. */
  function Window(start: Option<int>, end: Option<int>, now: int): (int, int)
  {
    var hi := if end.Some? then end.value else now;
    (if start.Some? then start.value else hi - OneHour, hi)
  }

  /** Without arguments the window is the hour up to now; given bounds are kept. */
  lemma WindowDefaults(start: int, end: int, now: int)
    ensures Window(None, None, now) == (now - OneHour, now)
    ensures Window(None, Some(end), now) == (end - OneHour, end)
    ensures Window(Some(start), Some(end), now) == (start, end)
    ensures Window(Some(start), None, now) == (start, now)
  {
  }

  /** The alert passes the filter: a time in the window (both ends included), Fired and New. */
  predicate Kept(alert: Alert, lo: int, hi: int, parseTime: string -> Parsed)
  {
    && alert.startDateTime.Some? && alert.startDateTime.value != ""
    && parseTime(alert.startDateTime.value).Aware?
    && lo <= parseTime(alert.startDateTime.value).seconds <= hi
    && alert.monitorCondition == Some("Fired")
    && alert.alertState == Some("New")
  }

  /** The row written for a kept alert. */
  function RowOf(alert: Alert, parseTime: string -> Parsed): SheetRow
    requires alert.startDateTime.Some? && parseTime(alert.startDateTime.value).Aware?
  {
    AlertRow(alert.alertRule, alert.monitorCondition,
      parseTime(alert.startDateTime.value).seconds + IstOffset)
  }

  /**
   * One pass of the alert loop: the row of a kept alert, nothing for an
   * alert without a time or with a time that does not parse, and TypeError
   * when a time without an offset is compared with the window.
   */
  function AlertStep(alert: Alert, lo: int, hi: int, parseTime: string -> Parsed): Result<Option<SheetRow>>
  {
    if alert.startDateTime == None || alert.startDateTime == Some("") then Ok(None)
    else
      match parseTime(alert.startDateTime.value)
      case Invalid => Ok(None)
      case Naive => Err(TypeError)
      case Aware(t) =>
        if lo <= t <= hi && alert.monitorCondition == Some("Fired") && alert.alertState == Some("New")
        then Ok(Some(AlertRow(alert.alertRule, alert.monitorCondition, t + IstOffset)))
        else Ok(None)
  }

  /**
   * A pass fails, with TypeError, exactly on a time without an offset; it
   * writes a row exactly for a kept alert, and that row is the alert's.
   */
  lemma AlertStepCases(alert: Alert, lo: int, hi: int, parseTime: string -> Parsed)
    ensures AlertStep(alert, lo, hi, parseTime).Err? <==>
      alert.startDateTime.Some? && alert.startDateTime.value != ""
      && parseTime(alert.startDateTime.value).Naive?
    ensures AlertStep(alert, lo, hi, parseTime).Err? ==> AlertStep(alert, lo, hi, parseTime).error == TypeError
    ensures AlertStep(alert, lo, hi, parseTime).Ok? ==>
      AlertStep(alert, lo, hi, parseTime).value == if Kept(alert, lo, hi, parseTime) then Some(RowOf(alert, parseTime)) else None
  {
  }

  function Step(lo: int, hi: int, parseTime: string -> Parsed): Alert -> Result<Option<SheetRow>>
  {
    a => AlertStep(a, lo, hi, parseTime)
  }

  /** The rows that are there. */
  function Present(rows: seq<Option<SheetRow>>): (r: seq<SheetRow>)
    ensures |r| <= |rows|
  {
    if rows == [] then []
    else Present(rows[..|rows| - 1]) + (if rows[|rows| - 1].Some? then [rows[|rows| - 1].value] else [])
  }

  lemma PresentAppend(rows: seq<Option<SheetRow>>, row: Option<SheetRow>)
    ensures Present(rows + [row]) == Present(rows) + (if row.Some? then [row.value] else [])
  {
    assert (rows + [row])[..|rows|] == rows;
  }

  lemma {:induction false} PresentConcat(xs: seq<Option<SheetRow>>, ys: seq<Option<SheetRow>>)
    ensures Present(xs + ys) == Present(xs) + Present(ys)
  {
    if ys == [] {
      assert xs + ys == xs;
    } else {
      assert (xs + ys)[..|xs + ys| - 1] == xs + ys[..|ys| - 1];
      PresentConcat(xs, ys[..|ys| - 1]);
    }
  }

  /** The sheet the loop writes: the header, then the rows of the kept alerts in order. */
  function FiredSheet(alerts: seq<Alert>, lo: int, hi: int, parseTime: string -> Parsed): Result<seq<SheetRow>>
  {
    match Traverse(alerts, Step(lo, hi, parseTime))
    case Err(e) => Err(e)
    case Ok(found) => Ok([Header] + Present(found))
  }

  /**
   * `get_fired_alerts`: the window defaults, then the alert loop. An error
   * is caught by the function's catch-all, which saves nothing.
   */
  method GetFiredAlerts(alerts: seq<Alert>, start: Option<int>, end: Option<int>, now: int, parseTime: string -> Parsed)
    returns (sheet: Result<seq<SheetRow>>, count: int)
    ensures sheet == FiredSheet(alerts, Window(start, end, now).0, Window(start, end, now).1, parseTime)
    ensures sheet.Ok? ==> count == |sheet.value| - 1
  {
    var hi := if end.Some? then end.value else now;
    var lo := if start.Some? then start.value else hi - OneHour;
    assert (lo, hi) == Window(start, end, now);
    sheet, count := CollectFired(alerts, lo, hi, parseTime);
  }

  /** The alert loop, counting the rows it appends after the header. */
  method CollectFired(alerts: seq<Alert>, lo: int, hi: int, parseTime: string -> Parsed)
    returns (sheet: Result<seq<SheetRow>>, count: int)
    ensures sheet == FiredSheet(alerts, lo, hi, parseTime)
    ensures sheet.Ok? ==> count == |sheet.value| - 1
  {
    var rows := [Header];
    ghost var found: seq<Option<SheetRow>> := [];
    count := 0;
    for i := 0 to |alerts|
      invariant Traverse(alerts[..i], Step(lo, hi, parseTime)) == Ok(found)
      invariant rows == [Header] + Present(found)
      invariant count == |rows| - 1
    {
      var outcome := ProcessAlert(alerts[i], lo, hi, parseTime);
      AlertLoopStep(alerts, i, found, lo, hi, parseTime);
      if outcome.Err? {
        AlertLoopStops(alerts, i, lo, hi, parseTime);
        return Err(outcome.error), count;
      }
      if outcome.value.Some? {
        count := count + 1;
        rows := rows + [outcome.value.value];
      }
      found := found + [outcome.value];
    }
    AlertLoopEnds(alerts, found, lo, hi, parseTime);
    sheet := Ok(rows);
  }

  /**
   * One pass of the loop: skip an alert without a start time or with one
   * that does not parse, raise TypeError on a time without an offset, and
   * give the row of an alert that passes the filter.
   */
  method ProcessAlert(alert: Alert, lo: int, hi: int, parseTime: string -> Parsed) returns (r: Result<Option<SheetRow>>)
    ensures r == AlertStep(alert, lo, hi, parseTime)
  {
    if alert.startDateTime == None || alert.startDateTime == Some("") {
      return Ok(None);
    }
    var fire := parseTime(alert.startDateTime.value);
    if fire.Invalid? {
      return Ok(None);
    }
    if fire.Naive? {
      return Err(TypeError);
    }
    if lo <= fire.seconds <= hi && alert.monitorCondition == Some("Fired") && alert.alertState == Some("New") {
      return Ok(Some(AlertRow(alert.alertRule, alert.monitorCondition, fire.seconds + IstOffset)));
    }
    return Ok(None);
  }

  /** A pass that succeeds extends the run by its outcome, and the sheet by its row if any. */
  lemma AlertLoopStep(alerts: seq<Alert>, i: nat, found: seq<Option<SheetRow>>, lo: int, hi: int, parseTime: string -> Parsed)
    requires i < |alerts|
    requires Traverse(alerts[..i], Step(lo, hi, parseTime)) == Ok(found)
    ensures AlertStep(alerts[i], lo, hi, parseTime).Ok? ==> Traverse(alerts[..i + 1], Step(lo, hi, parseTime)) == Ok(found + [AlertStep(alerts[i], lo, hi, parseTime).value])
    ensures AlertStep(alerts[i], lo, hi, parseTime) == Ok(None) ==>
      [Header] + Present(found + [None]) == [Header] + Present(found)
    ensures AlertStep(alerts[i], lo, hi, parseTime).Ok? && AlertStep(alerts[i], lo, hi, parseTime).value.Some? ==>
      [Header] + Present(found + [AlertStep(alerts[i], lo, hi, parseTime).value])
      == [Header] + Present(found) + [AlertStep(alerts[i], lo, hi, parseTime).value.value]
  {
    assert alerts[..i + 1] == alerts[..i] + [alerts[i]];
    TraverseAppend(alerts[..i], alerts[i], Step(lo, hi, parseTime));
    var r := AlertStep(alerts[i], lo, hi, parseTime);
    if r.Ok? {
      PresentAppend(found, r.value);
      if r.value.Some? {
        assert [Header] + Present(found) + [r.value.value] == [Header] + (Present(found) + [r.value.value]);
      }
    }
  }

  /** A run over every alert gives the sheet of its outcomes. */
  lemma AlertLoopEnds(alerts: seq<Alert>, found: seq<Option<SheetRow>>, lo: int, hi: int, parseTime: string -> Parsed)
    requires Traverse(alerts[..|alerts|], Step(lo, hi, parseTime)) == Ok(found)
    ensures FiredSheet(alerts, lo, hi, parseTime) == Ok([Header] + Present(found))
  {
    assert alerts[..|alerts|] == alerts;
  }

  /** A pass that fails ends the loop with its error. */
  lemma AlertLoopStops(alerts: seq<Alert>, i: nat, lo: int, hi: int, parseTime: string -> Parsed)
    requires i < |alerts|
    requires Traverse(alerts[..i], Step(lo, hi, parseTime)).Ok?
    requires AlertStep(alerts[i], lo, hi, parseTime).Err?
    ensures FiredSheet(alerts, lo, hi, parseTime) == Err(AlertStep(alerts[i], lo, hi, parseTime).error)
  {
    assert alerts[..i + 1] == alerts[..i] + [alerts[i]];
    TraverseAppend(alerts[..i], alerts[i], Step(lo, hi, parseTime));
    TraverseStopsAtError(alerts, i + 1, Step(lo, hi, parseTime));
  }

  /** The rows of the kept alerts, in order: the filter stated on its own. */
  function KeptRows(alerts: seq<Alert>, lo: int, hi: int, parseTime: string -> Parsed): seq<SheetRow>
  {
    if alerts == [] then []
    else
      var last := alerts[|alerts| - 1];
      KeptRows(alerts[..|alerts| - 1], lo, hi, parseTime) + (if Kept(last, lo, hi, parseTime) then [RowOf(last, parseTime)] else [])
  }

  /**
   * The sheet is written unless some alert has a time without an offset;
   * it then holds the header and exactly the rows of the kept alerts.
   */
  lemma FiredSheetIsKeptRows(alerts: seq<Alert>, lo: int, hi: int, parseTime: string -> Parsed)
    ensures FiredSheet(alerts, lo, hi, parseTime).Ok? <==>
      forall i | 0 <= i < |alerts| :: AlertStep(alerts[i], lo, hi, parseTime).Ok?
    ensures FiredSheet(alerts, lo, hi, parseTime).Ok? ==>
      FiredSheet(alerts, lo, hi, parseTime).value == [Header] + KeptRows(alerts, lo, hi, parseTime)
  {
    TraverseOk(alerts, Step(lo, hi, parseTime));
    if Traverse(alerts, Step(lo, hi, parseTime)).Ok? {
      PresentIsKeptRows(alerts, lo, hi, parseTime);
    }
  }

  lemma {:induction false} PresentIsKeptRows(alerts: seq<Alert>, lo: int, hi: int, parseTime: string -> Parsed)
    requires Traverse(alerts, Step(lo, hi, parseTime)).Ok?
    ensures Present(Traverse(alerts, Step(lo, hi, parseTime)).value) == KeptRows(alerts, lo, hi, parseTime)
  {
    if alerts != [] {
      var init, last := alerts[..|alerts| - 1], alerts[|alerts| - 1];
      var step := Step(lo, hi, parseTime);
      assert Traverse(init, step).Ok?;
      PresentIsKeptRows(init, lo, hi, parseTime);
      AlertStepCases(last, lo, hi, parseTime);
      PresentAppend(Traverse(init, step).value, step(last).value);
    }
  }

  /** An alert the loop skips leaves the sheet exactly as it would be without it. */
  lemma SkippedAlertChangesNothing(before: seq<Alert>, alert: Alert, after: seq<Alert>, lo: int, hi: int, parseTime: string -> Parsed)
    requires !Kept(alert, lo, hi, parseTime)
    requires AlertStep(alert, lo, hi, parseTime).Ok?
    ensures FiredSheet(before + [alert] + after, lo, hi, parseTime) == FiredSheet(before + after, lo, hi, parseTime)
  {
    var step := Step(lo, hi, parseTime);
    AlertStepCases(alert, lo, hi, parseTime);
    assert step(alert) == Ok(None);
    TraverseAround(before, alert, after, step);
    if Traverse(before + [alert] + after, step).Ok? {
      PresentSkipsNone(Traverse(before, step).value, Traverse(after, step).value);
    } else {
      assert Traverse(before + [alert] + after, step) == Traverse(before + after, step);
    }
  }

  /** A pass without a row leaves no trace on the sheet. */
  lemma PresentSkipsNone(us: seq<Option<SheetRow>>, vs: seq<Option<SheetRow>>)
    ensures Present(us + [None] + vs) == Present(us + vs)
  {
    PresentConcat(us + [None], vs);
    PresentAppend(us, None);
    PresentConcat(us, vs);
  }
}
