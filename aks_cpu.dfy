/**
 * The cluster survey of aksAutomation/AksAutomation.py: for every AKS
 * cluster, the status and CPU utilisation line of each node, the node
 * status counters and the pod phase counters. CPU quantities are read from
 * Kubernetes strings (`"2"`, `"1900m"`, `"123456789n"`) into milliCPU.
 */
module AksCpu {
  import opened Wrappers
  import opened Strings
  import opened Aborting
  import opened AzureIds
  import opened KubeStatus

  /** Python's `int(s)`: ValueError unless `s` is an optional sign and digits. */
  function PyInt(s: string): (r: Result<int>)
    ensures r.Err? ==> r.error == ValueError
  {
    match ParseInt(s)
    case Some(n) => Ok(n)
    case None => Err(ValueError)
  }

  /**
   * The allocatable CPU of a node in milliCPU: 0 when the entry is missing
   * or empty, the number before the `m`s when it has one, else whole cores.
   */
  function AllocatableMilli(cpu: Option<string>): (r: Result<int>)
    ensures r.Err? ==> r.error == ValueError && cpu.Some? && cpu.value != ""
  {
    if cpu == None || cpu == Some("") then Ok(0)
    else if 'm' in cpu.value then PyInt(RemoveAll(cpu.value, 'm'))
    else
      match PyInt(cpu.value)
      case Ok(cores) => Ok(cores * 1000)
      case Err(e) => Err(e)
  }

  /** Each spelling of an allocatable quantity reads back as the milliCPU it stands for. */
  lemma AllocatableMilliReadsBack(n: nat, cores: int)
    ensures AllocatableMilli(None) == Ok(0)
    ensures AllocatableMilli(Some("")) == Ok(0)
    ensures AllocatableMilli(Some(ShowNat(n) + "m")) == Ok(n)
    ensures AllocatableMilli(Some(ShowInt(cores))) == Ok(cores * 1000)
  {
    var milli := ShowNat(n) + "m";
    assert 'm' !in ShowNat(n) by {
      assert forall i | 0 <= i < |ShowNat(n)| :: IsDigit(ShowNat(n)[i]);
    }
    assert milli == ShowNat(n) + ['m'];
    assert milli[|milli| - 1] == 'm';
    RemoveAllAppend(ShowNat(n), 'm');
    ParseShowInt(n);
    assert ShowInt(n) == ShowNat(n);
    ParseShowInt(cores);
    assert 'm' !in ShowInt(cores) by {
      assert forall i | 0 <= i < |ShowInt(cores)| :: IsDigit(ShowInt(cores)[i]) || ShowInt(cores)[i] == '-';
    }
  }

  /**
   * The CPU usage reported by the metrics API in milliCPU. A missing entry
   * reads as `"0n"`; nanoCPU are rounded down to whole milliCPU.
   */
  function UsageMilli(cpu: Option<string>): (r: Result<int>)
    ensures r.Err? ==> r.error == ValueError && cpu.Some?
  {
    var s := if cpu == None then "0n" else cpu.value;
    if EndsWith(s, "n") then
      match PyInt(RemoveAll(s, 'n'))
      case Ok(nano) => Ok(nano / 1000000)
      case Err(e) => Err(e)
    else if EndsWith(s, "m") then PyInt(RemoveAll(s, 'm'))
    else
      match PyInt(s)
      case Ok(cores) => Ok(cores * 1000)
      case Err(e) => Err(e)
  }

  /** The last character of `str(n)` is a digit. */
  lemma ShowIntEndsInDigit(n: int)
    ensures IsDigit(ShowInt(n)[|ShowInt(n)| - 1])
  {
    var s := ShowNat(if n < 0 then -n else n);
    assert IsDigit(s[|s| - 1]);
    if n < 0 {
      assert ShowInt(n)[|ShowInt(n)| - 1] == s[|s| - 1];
    }
  }

  /** A missing usage entry reads as no usage. */
  lemma UsageMissing()
    ensures UsageMilli(None) == Ok(0)
  {
    assert "0n" == "0" + ['n'];
    RemoveAllAppend("0", 'n');
    assert ParseInt("0") == Some(0);
  }

  /** NanoCPU are floored to milliCPU, also below zero, as Python's `//` floors. */
  lemma UsageOfNano(nano: int)
    ensures UsageMilli(Some(ShowInt(nano) + "n")) == Ok(nano / 1000000)
    ensures var u := nano / 1000000; u * 1000000 <= nano < (u + 1) * 1000000
  {
    var ns := ShowInt(nano);
    assert 'n' !in ns by {
      assert forall i | 0 <= i < |ns| :: IsDigit(ns[i]) || ns[i] == '-';
    }
    assert ns + "n" == ns + ['n'];
    RemoveAllAppend(ns, 'n');
    ParseShowInt(nano);
  }

  /** MilliCPU read back as they are. */
  lemma UsageOfMilli(milli: nat)
    ensures UsageMilli(Some(ShowNat(milli) + "m")) == Ok(milli)
  {
    var ms := ShowNat(milli);
    assert 'm' !in ms && 'n' !in ms by {
      assert forall i | 0 <= i < |ms| :: IsDigit(ms[i]);
    }
    assert ms + "m" == ms + ['m'];
    RemoveAllAppend(ms, 'm');
    ParseShowInt(milli);
    assert ShowInt(milli) == ms;
  }

  /** Whole cores read back as a thousand milliCPU each. */
  lemma UsageOfCores(cores: int)
    ensures UsageMilli(Some(ShowInt(cores))) == Ok(cores * 1000)
  {
    var s := ShowInt(cores);
    ShowIntEndsInDigit(cores);
    assert !EndsWith(s, "n") by {
      assert s[|s| - 1..] != "n";
    }
    assert !EndsWith(s, "m") by {
      assert s[|s| - 1..] != "m";
    }
    ParseShowInt(cores);
    assert PyInt(s) == Ok(cores);
  }

  /** The outcome of asking the metrics API for a node. */
  datatype MetricsReply =
    | FetchFailed                  // the call raised
    | Reply(cpu: Option<string>)   // `usage.cpu`, if present

  /** The CPU line printed for a node. */
  datatype CpuLine =
    | Utilisation(usageMilli: int, allocMilli: int)
    | NotCalculated(usageMilli: int)
    | MetricsError

  /**
   * The `try` block: any failure to fetch or to read the usage is caught and
   * printed; utilisation is only computed against a positive allocatable.
   */
  function CpuLineOf(allocMilli: int, reply: MetricsReply): (line: CpuLine)
    ensures line.Utilisation? ==> line.allocMilli == allocMilli > 0
    ensures line.NotCalculated? ==> allocMilli <= 0
  {
    match reply
    case FetchFailed => MetricsError
    case Reply(cpu) =>
      match UsageMilli(cpu)
      case Err(_) => MetricsError
      case Ok(usage) => if allocMilli > 0 then Utilisation(usage, allocMilli) else NotCalculated(usage)
  }

  /**
   * The metrics line is an error exactly when the fetch or the usage string
   * fails; otherwise it carries the usage read, and it is a utilisation line
   * exactly when the allocatable CPU is positive.
   */
  lemma CpuLineErrors(allocMilli: int, reply: MetricsReply)
    ensures CpuLineOf(allocMilli, reply).MetricsError? <==> reply.FetchFailed? || UsageMilli(reply.cpu).Err?
    ensures !CpuLineOf(allocMilli, reply).MetricsError? ==>
      && CpuLineOf(allocMilli, reply).usageMilli == UsageMilli(reply.cpu).value
      && (CpuLineOf(allocMilli, reply).Utilisation? <==> allocMilli > 0)
      && (CpuLineOf(allocMilli, reply).NotCalculated? <==> allocMilli <= 0)
  {
  }

  /** A node as listed: its condition types in order, its allocatable CPU and its metrics. */
  datatype Node = Node(name: string, conditionTypes: seq<string>, allocatableCpu: Option<string>, metrics: MetricsReply)

  /** What is printed for a node: its status and its CPU line. */
  datatype NodeReport = NodeReport(name: string, status: string, cpu: CpuLine)

  /**
   * One pass of the node loop outside the `try`: the status is the type of
   * the last condition (IndexError without conditions), and a malformed
   * allocatable quantity raises ValueError.
   */
  function NodeStep(node: Node): (r: Result<NodeReport>)
    ensures r.Err? <==> node.conditionTypes == [] || AllocatableMilli(node.allocatableCpu).Err?
    ensures r.Err? && node.conditionTypes == [] ==> r.error == IndexError
    ensures r.Err? && node.conditionTypes != [] ==> r.error == ValueError
    ensures r.Ok? ==> r.value.status == node.conditionTypes[|node.conditionTypes| - 1]
  {
    match PyIndex(node.conditionTypes, -1)
    case Err(e) => Err(e)
    case Ok(status) =>
      match AllocatableMilli(node.allocatableCpu)
      case Err(e) => Err(e)
      case Ok(alloc) => Ok(NodeReport(node.name, status, CpuLineOf(alloc, node.metrics)))
  }

  function Statuses(reports: seq<NodeReport>): (ss: seq<string>)
    ensures |ss| == |reports|
    ensures forall i | 0 <= i < |reports| :: ss[i] == reports[i].status
  {
    seq(|reports|, i requires 0 <= i < |reports| => reports[i].status)
  }

  lemma StatusesAppend(reports: seq<NodeReport>, report: NodeReport)
    ensures Statuses(reports + [report]) == Statuses(reports) + [report.status]
  {
  }

  /** The node lines of a cluster and its three status counters. */
  datatype NodeSurvey = NodeSurvey(reports: seq<NodeReport>, counts: NodeCounts)

  /** The node loop: the report of every node, or the error of the first node that raises. */
  function SurveyOf(nodes: seq<Node>): Result<NodeSurvey>
  {
    match Traverse(nodes, NodeStep)
    case Err(e) => Err(e)
    case Ok(reports) => Ok(NodeSurvey(reports, NodeCountsOf(Statuses(reports))))
  }

  /** The node loop, printing each node and counting the statuses as it goes. */
  method SurveyNodes(nodes: seq<Node>) returns (r: Result<NodeSurvey>)
    ensures r == SurveyOf(nodes)
  {
    var reports: seq<NodeReport> := [];
    var a, b, c := 0, 0, 0;
    for i := 0 to |nodes|
      invariant Traverse(nodes[..i], NodeStep) == Ok(reports)
      invariant NodeCounts(a, b, c) == NodeCountsOf(Statuses(reports))
    {
      var node := nodes[i];
      SurveyStep(nodes, i, reports);
      if node.conditionTypes == [] {
        return Err(IndexError);
      }
      var status := node.conditionTypes[|node.conditionTypes| - 1];
      var alloc := AllocatableMilli(node.allocatableCpu);
      if alloc.Err? {
        return Err(alloc.error);
      }
      var report := NodeReport(node.name, status, CpuLineOf(alloc.value, node.metrics));
      assert NodeStep(node) == Ok(report);
      StatusesAppend(reports, report);
      NodeCountsAppend(Statuses(reports), status);
      reports := reports + [report];
      if status == Ready {
        a := a + 1;
      } else if status == NotReady {
        b := b + 1;
      } else if status == UnknownStatus {
        c := c + 1;
      }
    }
    assert nodes[..|nodes|] == nodes;
    r := Ok(NodeSurvey(reports, NodeCounts(a, b, c)));
  }

  /** One more node in the node loop: it stops the run with its error, or adds its report. */
  lemma SurveyStep(nodes: seq<Node>, i: nat, reports: seq<NodeReport>)
    requires i < |nodes|
    requires Traverse(nodes[..i], NodeStep) == Ok(reports)
    ensures NodeStep(nodes[i]).Err? ==> SurveyOf(nodes) == Err(NodeStep(nodes[i]).error)
    ensures NodeStep(nodes[i]).Ok? ==> Traverse(nodes[..i + 1], NodeStep) == Ok(reports + [NodeStep(nodes[i]).value])
  {
    assert nodes[..i + 1] == nodes[..i] + [nodes[i]];
    TraverseAppend(nodes[..i], nodes[i], NodeStep);
    if NodeStep(nodes[i]).Err? {
      TraverseStopsAtError(nodes, i + 1, NodeStep);
    }
  }

  /** The type of the last condition of every node, when each has one. */
  function LastConditionTypes(nodes: seq<Node>): (ss: seq<string>)
    requires forall i | 0 <= i < |nodes| :: nodes[i].conditionTypes != []
    ensures |ss| == |nodes|
  {
    seq(|nodes|, i requires 0 <= i < |nodes| => nodes[i].conditionTypes[|nodes[i].conditionTypes| - 1])
  }

  /**
   * The survey completes exactly when every node has a condition and a
   * well-formed allocatable quantity; it then has one line per node, in
   * order, and counts the last condition types as the status tally does.
   */
  lemma SurveyComplete(nodes: seq<Node>)
    ensures SurveyOf(nodes).Ok? <==>
      forall i | 0 <= i < |nodes| :: nodes[i].conditionTypes != [] && AllocatableMilli(nodes[i].allocatableCpu).Ok?
    ensures SurveyOf(nodes).Ok? ==>
      && |SurveyOf(nodes).value.reports| == |nodes|
      && (forall i | 0 <= i < |nodes| :: SurveyOf(nodes).value.reports[i] == NodeStep(nodes[i]).value)
      && SurveyOf(nodes).value.counts == NodeCountsOf(LastConditionTypes(nodes))
  {
    TraverseOk(nodes, NodeStep);
    if SurveyOf(nodes).Ok? {
      assert Statuses(SurveyOf(nodes).value.reports) == LastConditionTypes(nodes);
    }
  }

  /** A failed survey reports the error of the first node without a condition or with a bad allocatable. */
  lemma SurveyFailure(nodes: seq<Node>)
    requires SurveyOf(nodes).Err?
    ensures exists i | 0 <= i < |nodes| ::
      && NodeStep(nodes[i]).Err?
      && SurveyOf(nodes).error == NodeStep(nodes[i]).error
      && forall j | 0 <= j < i :: NodeStep(nodes[j]).Ok?
  {
    TraverseFirstError(nodes, NodeStep);
  }

  /** A cluster as listed: its name and ARM id, its nodes and its pods' phases. */
  datatype Cluster = Cluster(name: string, id: string, nodes: seq<Node>, podPhases: seq<Option<string>>)

  /** What is printed for a cluster. */
  datatype ClusterReport = ClusterReport(name: string, resourceGroup: string, nodes: NodeSurvey, pods: PodCounts)

  /** One pass of the cluster loop; the counters start from zero for every cluster. */
  function ClusterReportOf(cluster: Cluster): Result<ClusterReport>
  {
    match ResourceGroup(cluster.id)
    case Err(e) => Err(e)
    case Ok(group) =>
      match SurveyOf(cluster.nodes)
      case Err(e) => Err(e)
      case Ok(survey) => Ok(ClusterReport(cluster.name, group, survey, PodCountsOf(cluster.podPhases)))
  }

  /** The cluster loop of the script. */
  method SurveyClusters(clusters: seq<Cluster>) returns (r: Result<seq<ClusterReport>>)
    ensures r == Traverse(clusters, ClusterReportOf)
  {
    var done: seq<ClusterReport> := [];
    for i := 0 to |clusters|
      invariant Traverse(clusters[..i], ClusterReportOf) == Ok(done)
    {
      var cluster := clusters[i];
      assert clusters[..i + 1] == clusters[..i] + [cluster];
      TraverseAppend(clusters[..i], cluster, ClusterReportOf);
      var group := ResourceGroup(cluster.id);
      if group.Err? {
        TraverseStopsAtError(clusters, i + 1, ClusterReportOf);
        return Err(group.error);
      }
      var survey := SurveyNodes(cluster.nodes);
      if survey.Err? {
        TraverseStopsAtError(clusters, i + 1, ClusterReportOf);
        return Err(survey.error);
      }
      var pods := TallyPods(cluster.podPhases);
      done := done + [ClusterReport(cluster.name, group.value, survey.value, pods)];
    }
    assert clusters[..|clusters|] == clusters;
    r := Ok(done);
  }

  /**
   * The counters are reset for every cluster: each report depends on its
   * own cluster only, and an id of the usual form gives its resource group.
   */
  lemma ClusterReportsIndependent(clusters: seq<Cluster>, i: nat)
    requires Traverse(clusters, ClusterReportOf).Ok?
    requires i < |clusters|
    ensures ClusterReportOf(clusters[i]).Ok?
    ensures Traverse(clusters, ClusterReportOf).value[i] == ClusterReportOf(clusters[i]).value
    ensures Traverse(clusters, ClusterReportOf).value[i].pods == PodCountsOf(clusters[i].podPhases)
    ensures Traverse(clusters, ClusterReportOf).value[i].nodes == SurveyOf(clusters[i].nodes).value
    ensures Traverse(clusters, ClusterReportOf).value[i].resourceGroup == Split(clusters[i].id, '/')[4]
  {
    TraverseOk(clusters, ClusterReportOf);
    assert ClusterReportOf(clusters[i]).Ok?;
  }
}
