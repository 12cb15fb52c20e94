/**
 * The cluster status summary of AksAutomation.py: for every AKS cluster,
 * the node status counters and the pod phase counters. Its node loop is
 * modelled twice: as written, where every node whose last condition is not
 * Ready raises AttributeError, and as evidently intended, which is the
 * status tally shared with aksAutomation/AksAutomation.py.
 */
module AksStatus {
  import opened Wrappers
  import opened Strings
  import opened Aborting
  import opened AzureIds
  import opened KubeStatus

  /** The second status the script compares with, spelled with a space. */
  const NotReadySpaced := "Not Ready"

  /**
   * One pass of the node loop as written: the type of the last condition
   * (IndexError without conditions) when it is Ready; otherwise the `elif`
   * reads `node.status.condition`, which nodes do not have.
   */
  function NodeStepAsWritten(conditionTypes: seq<string>): (r: Result<string>)
    ensures r.Ok? ==> r.value == Ready
  {
    match PyIndex(conditionTypes, -1)
    case Err(e) => Err(e)
    case Ok(status) => if status == Ready then Ok(status) else Err(AttributeError)
  }

  /** The node loop as written, over the condition types of each node. */
  function NodeCountsAsWritten(nodes: seq<seq<string>>): Result<NodeCounts>
  {
    match Traverse(nodes, NodeStepAsWritten)
    case Err(e) => Err(e)
    case Ok(statuses) => Ok(NodeCountsOf(statuses))
  }

  /**
   * As written, the loop only ever completes when every node is Ready, so
   * the NotReady and Unknown counters stay at zero.
   */
  lemma AsWrittenCountsOnlyReady(nodes: seq<seq<string>>)
    ensures NodeCountsAsWritten(nodes).Ok? <==>
      forall i | 0 <= i < |nodes| :: nodes[i] != [] && nodes[i][|nodes[i]| - 1] == Ready
    ensures NodeCountsAsWritten(nodes).Ok? ==> NodeCountsAsWritten(nodes).value == NodeCounts(|nodes|, 0, 0)
  {
    TraverseOk(nodes, NodeStepAsWritten);
    var r := Traverse(nodes, NodeStepAsWritten);
    if r.Ok? {
      assert forall i | 0 <= i < |nodes| :: r.value[i] == Ready;
      assert multiset(r.value)[Ready] == |nodes| by {
        assert r.value == seq(|nodes|, i => Ready);
        ReadyCount(|nodes|);
      }
      assert NotReady !in multiset(r.value);
      assert UnknownStatus !in multiset(r.value);
    }
  }

  lemma {:induction false} ReadyCount(n: nat)
    ensures multiset(seq(n, i => Ready))[Ready] == n
    ensures NotReady !in multiset(seq(n, i => Ready))
    ensures UnknownStatus !in multiset(seq(n, i => Ready))
  {
    if n > 0 {
      ReadyCount(n - 1);
      assert seq(n, i => Ready) == seq(n - 1, i => Ready) + [Ready];
    }
  }

  /** A single Unknown node aborts the script as written, and is counted once by the tally. */
  lemma AsWrittenAbortsOnUnknownNode()
    ensures NodeCountsAsWritten([[UnknownStatus]]) == Err(AttributeError)
    ensures NodeCounts(0, 0, 1) == NodeCountsOf([UnknownStatus])
  {
    assert [[UnknownStatus]][..0] == [];
    assert UnknownStatus[0] != Ready[0];
    assert NodeStepAsWritten([UnknownStatus]) == Err(AttributeError);
    assert Traverse([[UnknownStatus]][..0], NodeStepAsWritten) == Ok([]);
    assert Traverse([[UnknownStatus]], NodeStepAsWritten) == Err(AttributeError);
  }

  /** The `"Not Ready"` comparison, had the attribute been right: how many nodes it matches. */
  function NotReadyAsSpelled(statuses: seq<string>): nat
  {
    multiset(statuses)[NotReadySpaced]
  }

  /**
   * The status `NotReady`, the spelling the tally of
   * aksAutomation/AksAutomation.py compares with, is never matched by the
   * spaced spelling, and is counted by that tally.
   */
  lemma SpacedNotReadyMissesNotReady()
    ensures NotReadyAsSpelled([NotReady]) == 0
    ensures NodeCountsOf([NotReady]).notReady == 1
  {
    assert NotReady != NotReadySpaced;
  }

  /** One pass of the intended node loop: the last condition's type, IndexError without one. */
  function LastConditionType(conditionTypes: seq<string>): (r: Result<string>)
    ensures r.Ok? <==> conditionTypes != []
    ensures r.Ok? ==> r.value == conditionTypes[|conditionTypes| - 1]
    ensures r.Err? ==> r.error == IndexError
  {
    PyIndex(conditionTypes, -1)
  }

  /** The intended node loop: the status tally of the nodes' last condition types. */
  function NodeCountsOfNodes(nodes: seq<seq<string>>): Result<NodeCounts>
  {
    match Traverse(nodes, LastConditionType)
    case Err(e) => Err(e)
    case Ok(statuses) => Ok(NodeCountsOf(statuses))
  }

  /**
   * The node loop as written, counting as it goes: a Ready node increments
   * `a`; for any other node the `elif` raises before `b` or `c` can change.
   */
  method CountNodesAsWritten(nodes: seq<seq<string>>) returns (r: Result<NodeCounts>)
    ensures r == NodeCountsAsWritten(nodes)
  {
    ghost var statuses: seq<string> := [];
    var a, b, c := 0, 0, 0;
    for i := 0 to |nodes|
      invariant Traverse(nodes[..i], NodeStepAsWritten) == Ok(statuses)
      invariant NodeCounts(a, b, c) == NodeCountsOf(statuses)
    {
      CountNodesAsWrittenStep(nodes, i, statuses);
      if nodes[i] == [] {
        return Err(IndexError);
      }
      var status := nodes[i][|nodes[i]| - 1];
      if status != Ready {
        return Err(AttributeError);
      }
      NodeCountsAppend(statuses, status);
      statuses := statuses + [status];
      a := a + 1;
    }
    assert nodes[..|nodes|] == nodes;
    r := Ok(NodeCounts(a, b, c));
  }

  /** One more node in the loop as written: it stops the run, or adds a Ready status. */
  lemma CountNodesAsWrittenStep(nodes: seq<seq<string>>, i: nat, statuses: seq<string>)
    requires i < |nodes|
    requires Traverse(nodes[..i], NodeStepAsWritten) == Ok(statuses)
    ensures nodes[i] == [] ==> NodeCountsAsWritten(nodes) == Err(IndexError)
    ensures nodes[i] != [] && nodes[i][|nodes[i]| - 1] != Ready ==> NodeCountsAsWritten(nodes) == Err(AttributeError)
    ensures nodes[i] != [] && nodes[i][|nodes[i]| - 1] == Ready ==>
      Traverse(nodes[..i + 1], NodeStepAsWritten) == Ok(statuses + [Ready])
  {
    assert nodes[..i + 1] == nodes[..i] + [nodes[i]];
    TraverseAppend(nodes[..i], nodes[i], NodeStepAsWritten);
    if nodes[i] == [] {
      assert NodeStepAsWritten(nodes[i]) == Err(IndexError);
      TraverseStopsAtError(nodes, i + 1, NodeStepAsWritten);
    } else if nodes[i][|nodes[i]| - 1] != Ready {
      assert NodeStepAsWritten(nodes[i]) == Err(AttributeError);
      TraverseStopsAtError(nodes, i + 1, NodeStepAsWritten);
    } else {
      assert NodeStepAsWritten(nodes[i]) == Ok(Ready);
    }
  }

  /** The intended node loop, counting as it goes. */
  method CountNodes(nodes: seq<seq<string>>) returns (r: Result<NodeCounts>)
    ensures r == NodeCountsOfNodes(nodes)
  {
    ghost var statuses: seq<string> := [];
    var a, b, c := 0, 0, 0;
    for i := 0 to |nodes|
      invariant Traverse(nodes[..i], LastConditionType) == Ok(statuses)
      invariant NodeCounts(a, b, c) == NodeCountsOf(statuses)
    {
      CountNodesStep(nodes, i, statuses);
      if nodes[i] == [] {
        return Err(IndexError);
      }
      var status := nodes[i][|nodes[i]| - 1];
      NodeCountsAppend(statuses, status);
      statuses := statuses + [status];
      if status == Ready {
        a := a + 1;
      } else if status == NotReady {
        b := b + 1;
      } else if status == UnknownStatus {
        c := c + 1;
      }
    }
    assert nodes[..|nodes|] == nodes;
    r := Ok(NodeCounts(a, b, c));
  }

  /** One more node in the intended loop: it stops the run, or adds its status. */
  lemma CountNodesStep(nodes: seq<seq<string>>, i: nat, statuses: seq<string>)
    requires i < |nodes|
    requires Traverse(nodes[..i], LastConditionType) == Ok(statuses)
    ensures nodes[i] == [] ==> NodeCountsOfNodes(nodes) == Err(IndexError)
    ensures nodes[i] != [] ==> Traverse(nodes[..i + 1], LastConditionType) == Ok(statuses + [nodes[i][|nodes[i]| - 1]])
  {
    assert nodes[..i + 1] == nodes[..i] + [nodes[i]];
    TraverseAppend(nodes[..i], nodes[i], LastConditionType);
    if nodes[i] == [] {
      TraverseStopsAtError(nodes, i + 1, LastConditionType);
    }
  }

  /**
   * Where the script as written completes, the intended loop gives the same
   * counters; it also completes on every node list with conditions.
   */
  lemma IntendedAgreesWhereWrittenCompletes(nodes: seq<seq<string>>)
    ensures NodeCountsAsWritten(nodes).Ok? ==> NodeCountsOfNodes(nodes) == NodeCountsAsWritten(nodes)
    ensures NodeCountsOfNodes(nodes).Ok? <==> forall i | 0 <= i < |nodes| :: nodes[i] != []
  {
    TraverseOk(nodes, NodeStepAsWritten);
    TraverseOk(nodes, LastConditionType);
    if NodeCountsAsWritten(nodes).Ok? {
      var written := Traverse(nodes, NodeStepAsWritten).value;
      assert forall i | 0 <= i < |nodes| :: LastConditionType(nodes[i]).value == written[i];
      assert Traverse(nodes, LastConditionType).value == written;
    }
  }

  /** A cluster as listed: its name and ARM id, its nodes' condition types and its pods' phases. */
  datatype Cluster = Cluster(name: string, id: string, nodes: seq<seq<string>>, podPhases: seq<Option<string>>)

  /** What is printed for a cluster. */
  datatype ClusterStatus = ClusterStatus(name: string, resourceGroup: string, nodes: NodeCounts, pods: PodCounts)

  /** One pass of the cluster loop; the counters start from zero for every cluster. */
  function ClusterStatusOf(cluster: Cluster): Result<ClusterStatus>
  {
    match ResourceGroup(cluster.id)
    case Err(e) => Err(e)
    case Ok(group) =>
      match NodeCountsOfNodes(cluster.nodes)
      case Err(e) => Err(e)
      case Ok(counts) => Ok(ClusterStatus(cluster.name, group, counts, PodCountsOf(cluster.podPhases)))
  }

  /** One pass of the cluster loop as written; the counters start from zero for every cluster. */
  function ClusterStatusAsWritten(cluster: Cluster): Result<ClusterStatus>
  {
    match ResourceGroup(cluster.id)
    case Err(e) => Err(e)
    case Ok(group) =>
      match NodeCountsAsWritten(cluster.nodes)
      case Err(e) => Err(e)
      case Ok(counts) => Ok(ClusterStatus(cluster.name, group, counts, PodCountsOf(cluster.podPhases)))
  }

  /** The cluster loop of the script as written. */
  method SummariseClustersAsWritten(clusters: seq<Cluster>) returns (r: Result<seq<ClusterStatus>>)
    ensures r == Traverse(clusters, ClusterStatusAsWritten)
  {
    var done: seq<ClusterStatus> := [];
    for i := 0 to |clusters|
      invariant Traverse(clusters[..i], ClusterStatusAsWritten) == Ok(done)
    {
      var cluster := clusters[i];
      assert clusters[..i + 1] == clusters[..i] + [cluster];
      TraverseAppend(clusters[..i], cluster, ClusterStatusAsWritten);
      var group := ResourceGroup(cluster.id);
      if group.Err? {
        TraverseStopsAtError(clusters, i + 1, ClusterStatusAsWritten);
        return Err(group.error);
      }
      var nodes := CountNodesAsWritten(cluster.nodes);
      if nodes.Err? {
        TraverseStopsAtError(clusters, i + 1, ClusterStatusAsWritten);
        return Err(nodes.error);
      }
      var pods := TallyPods(cluster.podPhases);
      done := done + [ClusterStatus(cluster.name, group.value, nodes.value, pods)];
    }
    assert clusters[..|clusters|] == clusters;
    r := Ok(done);
  }

  /**
   * As written, the script completes exactly when every id has a resource
   * group and every node of every cluster is Ready; each cluster then counts
   * all its nodes as Ready, none as NotReady or Unknown, and its own pods.
   */
  lemma SummaryAsWrittenPerCluster(clusters: seq<Cluster>)
    ensures Traverse(clusters, ClusterStatusAsWritten).Ok? <==>
      forall i | 0 <= i < |clusters| ::
        && ResourceGroup(clusters[i].id).Ok?
        && forall j | 0 <= j < |clusters[i].nodes| ::
             clusters[i].nodes[j] != [] && clusters[i].nodes[j][|clusters[i].nodes[j]| - 1] == Ready
    ensures Traverse(clusters, ClusterStatusAsWritten).Ok? ==>
      forall i | 0 <= i < |clusters| ::
        && Traverse(clusters, ClusterStatusAsWritten).value[i].nodes == NodeCounts(|clusters[i].nodes|, 0, 0)
        && Traverse(clusters, ClusterStatusAsWritten).value[i].pods == PodCountsOf(clusters[i].podPhases)
  {
    TraverseOk(clusters, ClusterStatusAsWritten);
    forall i | 0 <= i < |clusters|
      ensures NodeCountsAsWritten(clusters[i].nodes).Ok? <==>
        forall j | 0 <= j < |clusters[i].nodes| ::
          clusters[i].nodes[j] != [] && clusters[i].nodes[j][|clusters[i].nodes[j]| - 1] == Ready
      ensures NodeCountsAsWritten(clusters[i].nodes).Ok? ==>
        NodeCountsAsWritten(clusters[i].nodes).value == NodeCounts(|clusters[i].nodes|, 0, 0)
    {
      AsWrittenCountsOnlyReady(clusters[i].nodes);
    }
  }

  /** The corrected cluster loop: the same passes, with the intended node loop. */
  method SummariseClusters(clusters: seq<Cluster>) returns (r: Result<seq<ClusterStatus>>)
    ensures r == Traverse(clusters, ClusterStatusOf)
  {
    var done: seq<ClusterStatus> := [];
    for i := 0 to |clusters|
      invariant Traverse(clusters[..i], ClusterStatusOf) == Ok(done)
    {
      var cluster := clusters[i];
      assert clusters[..i + 1] == clusters[..i] + [cluster];
      TraverseAppend(clusters[..i], cluster, ClusterStatusOf);
      var group := ResourceGroup(cluster.id);
      if group.Err? {
        TraverseStopsAtError(clusters, i + 1, ClusterStatusOf);
        return Err(group.error);
      }
      var nodes := CountNodes(cluster.nodes);
      if nodes.Err? {
        TraverseStopsAtError(clusters, i + 1, ClusterStatusOf);
        return Err(nodes.error);
      }
      var pods := TallyPods(cluster.podPhases);
      done := done + [ClusterStatus(cluster.name, group.value, nodes.value, pods)];
    }
    assert clusters[..|clusters|] == clusters;
    r := Ok(done);
  }

  /**
   * The summary completes exactly when every id has a resource group and
   * every node a condition; each cluster's counters then come from its own
   * nodes and pods only.
   */
  lemma SummaryPerCluster(clusters: seq<Cluster>)
    ensures Traverse(clusters, ClusterStatusOf).Ok? <==>
      forall i | 0 <= i < |clusters| ::
        && ResourceGroup(clusters[i].id).Ok?
        && forall j | 0 <= j < |clusters[i].nodes| :: clusters[i].nodes[j] != []
    ensures Traverse(clusters, ClusterStatusOf).Ok? ==>
      forall i | 0 <= i < |clusters| ::
        && NodeCountsOfNodes(clusters[i].nodes).Ok?
        && Traverse(clusters, ClusterStatusOf).value[i].nodes == NodeCountsOfNodes(clusters[i].nodes).value
        && Traverse(clusters, ClusterStatusOf).value[i].pods == PodCountsOf(clusters[i].podPhases)
  {
    TraverseOk(clusters, ClusterStatusOf);
    forall i | 0 <= i < |clusters|
      ensures NodeCountsOfNodes(clusters[i].nodes).Ok? <==> forall j | 0 <= j < |clusters[i].nodes| :: clusters[i].nodes[j] != []
    {
      IntendedAgreesWhereWrittenCompletes(clusters[i].nodes);
    }
  }
}
