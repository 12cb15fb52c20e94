/**
 * The restore-point report of restorepointScript.py: for every restore
 * point collection, the latest restore point as one row, with the names of
 * the disks it covers (the OS disk first, then the data disks) joined into
 * one cell, and "N/A" for any missing field. A collection whose query fails
 * adds no row.
 */
module RestorePoints {
  import opened Wrappers
  import opened Strings

  /** The fields of a restore point the script reads; None for a missing key. */
  datatype RestorePoint = RestorePoint(
    name: Option<string>,
    timeCreated: Option<string>,
    provisioningState: Option<string>,
    osDiskName: Option<string>,
    dataDiskNames: seq<Option<string>>)

  /** Python truthiness of an optional string: present and not empty. */
  predicate Named(name: Option<string>)
  {
    name.Some? && name.value != ""
  }

  /** The names of the data disks that have one, in order. */
  function NamedDisks(names: seq<Option<string>>): (r: seq<string>)
    ensures |r| <= |names|
  {
    if names == [] then []
    else NamedDisks(names[..|names| - 1]) + (if Named(names[|names| - 1]) then [names[|names| - 1].value] else [])
  }

  /** The disk list: the OS disk when it has a name, then every named data disk. */
  function DiskNamesOf(point: RestorePoint): seq<string>
  {
    (if Named(point.osDiskName) then [point.osDiskName.value] else []) + NamedDisks(point.dataDiskNames)
  }

  /** The loop that builds `disks`. */
  method DiskNames(point: RestorePoint) returns (disks: seq<string>)
    ensures disks == DiskNamesOf(point)
  {
    disks := [];
    if Named(point.osDiskName) {
      disks := disks + [point.osDiskName.value];
    }
    ghost var start := disks;
    for i := 0 to |point.dataDiskNames|
      invariant disks == start + NamedDisks(point.dataDiskNames[..i])
    {
      var disk := point.dataDiskNames[i];
      assert point.dataDiskNames[..i + 1][..i] == point.dataDiskNames[..i];
      if Named(disk) {
        disks := disks + [disk.value];
      }
    }
    assert point.dataDiskNames[..|point.dataDiskNames|] == point.dataDiskNames;
  }

  /** A name is listed exactly when it is the named OS disk or a named data disk. */
  lemma {:induction false} NamedDisksMembers(names: seq<Option<string>>, d: string)
    ensures d in NamedDisks(names) <==> d != "" && Some(d) in names
  {
    if names != [] {
      var init := names[..|names| - 1];
      NamedDisksMembers(init, d);
      assert names == init + [names[|names| - 1]];
    }
  }

  /**
   * The OS disk, when named, comes first and the data disks follow in
   * order; no listed name is empty, and nothing else is listed.
   */
  lemma DiskNamesOrder(point: RestorePoint, d: string)
    ensures Named(point.osDiskName) ==>
      DiskNamesOf(point)[0] == point.osDiskName.value && DiskNamesOf(point)[1..] == NamedDisks(point.dataDiskNames)
    ensures !Named(point.osDiskName) ==> DiskNamesOf(point) == NamedDisks(point.dataDiskNames)
    ensures d in DiskNamesOf(point) <==>
      d != "" && (point.osDiskName == Some(d) || Some(d) in point.dataDiskNames)
  {
    NamedDisksMembers(point.dataDiskNames, d);
  }

  /** Data disks appended to the list appear at its end, in order. */
  lemma {:induction false} NamedDisksAppend(xs: seq<Option<string>>, ys: seq<Option<string>>)
    ensures NamedDisks(xs + ys) == NamedDisks(xs) + NamedDisks(ys)
  {
    if ys == [] {
      assert xs + ys == xs;
    } else {
      var init := ys[..|ys| - 1];
      assert (xs + ys)[..|xs + ys| - 1] == xs + init;
      NamedDisksAppend(xs, init);
    }
  }

  /** `", ".join(disks) if disks else "None"`. */
  function DisksCell(disks: seq<string>): string
  {
    if disks == [] then "None" else Join(disks, ", ")
  }

  /** One disk is shown alone; each further disk adds `", "` and its name at the end. */
  lemma DisksCellGrows(disks: seq<string>, d: string)
    ensures DisksCell([d]) == d
    ensures disks != [] ==> DisksCell(disks + [d]) == DisksCell(disks) + ", " + d
  {
    if disks != [] {
      JoinAppend(disks, d, ", ");
    }
  }

  /** `data.get(key, "N/A")`. */
  function OrNA(field: Option<string>): string
  {
    if field.Some? then field.value else "N/A"
  }

  /** A collection to report on. */
  datatype Target = Target(subscription: string, resourceGroup: string, collection: string)

  /** The outcome of the `az restore-point collection show` query for a target. */
  datatype Fetch =
    | CliFailed             // CalledProcessError: no restore points
    | BadJson               // JSONDecodeError
    | NoPoint               // JSON null: `data.get` raises AttributeError
    | Point(point: RestorePoint)

  datatype RestoreRow = RestoreRow(
    subscription: string, resourceGroup: string, collection: string,
    name: string, disks: string, created: string, state: string)

  /** The row written for a restore point. */
  function RowOf(target: Target, point: RestorePoint): RestoreRow
  {
    RestoreRow(target.subscription, target.resourceGroup, target.collection,
      OrNA(point.name), DisksCell(DiskNamesOf(point)), OrNA(point.timeCreated), OrNA(point.provisioningState))
  }

  /** The rows of the targets whose query gave a restore point, in order. */
  function RowsOf(targets: seq<Target>, fetch: Target -> Fetch): seq<RestoreRow>
  {
    if targets == [] then []
    else
      var last := targets[|targets| - 1];
      RowsOf(targets[..|targets| - 1], fetch) + (if fetch(last).Point? then [RowOf(last, fetch(last).point)] else [])
  }

  /**
   * The collection loop; every failure is caught and skips the target.
   * `fetch` stands for the CLI query of the target's latest restore point.
   */
  method CollectRestorePoints(targets: seq<Target>, fetch: Target -> Fetch) returns (rows: seq<RestoreRow>)
    ensures rows == RowsOf(targets, fetch)
  {
    rows := [];
    for i := 0 to |targets|
      invariant rows == RowsOf(targets[..i], fetch)
    {
      var target := targets[i];
      assert targets[..i + 1][..i] == targets[..i];
      var fetched := fetch(target);
      if fetched.Point? {
        var point := fetched.point;
        var disks := DiskNames(point);
        var row := RestoreRow(target.subscription, target.resourceGroup, target.collection,
          OrNA(point.name), DisksCell(disks), OrNA(point.timeCreated), OrNA(point.provisioningState));
        rows := rows + [row];
      }
    }
    assert targets[..|targets|] == targets;
  }

  /** The number of targets whose query gave a restore point. */
  function Found(targets: seq<Target>, fetch: Target -> Fetch): nat
  {
    if targets == [] then 0
    else Found(targets[..|targets| - 1], fetch) + (if fetch(targets[|targets| - 1]).Point? then 1 else 0)
  }

  /**
   * Rows are appended only on success: one row per target whose query gave
   * a restore point, and each row is that point's, with its target.
   */
  lemma {:induction false} OneRowPerRestorePoint(targets: seq<Target>, fetch: Target -> Fetch)
    ensures |RowsOf(targets, fetch)| == Found(targets, fetch)
    ensures forall r | r in RowsOf(targets, fetch) ::
      exists i | 0 <= i < |targets| :: fetch(targets[i]).Point? && r == RowOf(targets[i], fetch(targets[i]).point)
  {
    if targets != [] {
      var init := targets[..|targets| - 1];
      OneRowPerRestorePoint(init, fetch);
      forall r | r in RowsOf(targets, fetch)
        ensures exists i | 0 <= i < |targets| :: fetch(targets[i]).Point? && r == RowOf(targets[i], fetch(targets[i]).point)
      {
        if r in RowsOf(init, fetch) {
          var i :| 0 <= i < |init| && fetch(init[i]).Point? && r == RowOf(init[i], fetch(init[i]).point);
          assert targets[i] == init[i];
        } else {
          assert targets[|targets| - 1] == targets[|targets| - 1];
        }
      }
    }
  }
}
