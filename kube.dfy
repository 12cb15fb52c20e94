/**
 * The node and pod status tallies of both AKS scripts: per cluster, the
 * number of nodes whose status is Ready, NotReady or Unknown, and the number
 * of pods in each of the five pod phases. Anything else is not counted.
 */
module KubeStatus {
  import opened Wrappers

  /** The node statuses the tally counts, in the order of its branches. */
  const Ready := "Ready"
  const NotReady := "NotReady"
  const UnknownStatus := "Unknown"

  /** The pod phases the tally counts, in the order of its branches. */
  const Running := "Running"
  const Failed := "Failed"
  const Pending := "Pending"
  const Succeeded := "Succeeded"
  const UnknownPhase := "Unknown"

  datatype NodeCounts = NodeCounts(ready: nat, notReady: nat, unknown: nat)

  datatype PodCounts = PodCounts(running: nat, failed: nat, pending: nat, succeeded: nat, unknown: nat)

  /** How many elements of `xs` are none of `labels`. */
  function Unlisted<T>(xs: seq<T>, labels: set<T>): (n: nat)
    ensures n <= |xs|
  {
    if xs == [] then 0
    else Unlisted(xs[..|xs| - 1], labels) + (if xs[|xs| - 1] in labels then 0 else 1)
  }

  /** The counters `a`, `b`, `c` as functions of the node statuses. */
  function NodeCountsOf(statuses: seq<string>): NodeCounts
  {
    NodeCounts(multiset(statuses)[Ready], multiset(statuses)[NotReady], multiset(statuses)[UnknownStatus])
  }

  /**
   * The node loop of aksAutomation/AksAutomation.py: each node increments
   * the counter of its status, if it is one of the three.
   */
  method TallyNodeStatuses(statuses: seq<string>) returns (counts: NodeCounts)
    ensures counts == NodeCountsOf(statuses)
  {
    var a, b, c := 0, 0, 0;
    for i := 0 to |statuses|
      invariant NodeCounts(a, b, c) == NodeCountsOf(statuses[..i])
    {
      assert statuses[..i + 1] == statuses[..i] + [statuses[i]];
      var status := statuses[i];
      if status == Ready {
        a := a + 1;
      } else if status == NotReady {
        b := b + 1;
      } else if status == UnknownStatus {
        c := c + 1;
      }
    }
    assert statuses[..|statuses|] == statuses;
    counts := NodeCounts(a, b, c);
  }

  /**
   * Each node is counted at most once: the three counters and the nodes
   * with any other status add up to the number of nodes.
   */
  lemma {:induction false} NodeCountsPartition(statuses: seq<string>)
    ensures var n := NodeCountsOf(statuses);
      n.ready + n.notReady + n.unknown + Unlisted(statuses, {Ready, NotReady, UnknownStatus}) == |statuses|
  {
    if statuses != [] {
      var init := statuses[..|statuses| - 1];
      assert statuses == init + [statuses[|statuses| - 1]];
      NodeCountsPartition(init);
    }
  }

  /** One more status adds one to its own counter and to no other. */
  lemma NodeCountsAppend(statuses: seq<string>, status: string)
    ensures var before, after := NodeCountsOf(statuses), NodeCountsOf(statuses + [status]);
      && after.ready == before.ready + (if status == Ready then 1 else 0)
      && after.notReady == before.notReady + (if status == NotReady then 1 else 0)
      && after.unknown == before.unknown + (if status == UnknownStatus then 1 else 0)
  {
    assert multiset(statuses + [status]) == multiset(statuses) + multiset{status};
  }

  /** The counters `a` to `e` as functions of the pod phases; a pod without a phase is None. */
  function PodCountsOf(phases: seq<Option<string>>): PodCounts
  {
    var m := multiset(phases);
    PodCounts(m[Some(Running)], m[Some(Failed)], m[Some(Pending)], m[Some(Succeeded)], m[Some(UnknownPhase)])
  }

  /** The counted phases, as the values `pod.status.phase` compares equal to. */
  function PodPhases(): set<Option<string>>
  {
    {Some(Running), Some(Failed), Some(Pending), Some(Succeeded), Some(UnknownPhase)}
  }

  /** The pod loop of both scripts: each pod increments the counter of its phase, if any. */
  method TallyPods(phases: seq<Option<string>>) returns (counts: PodCounts)
    ensures counts == PodCountsOf(phases)
  {
    var a, b, c, d, e := 0, 0, 0, 0, 0;
    for i := 0 to |phases|
      invariant PodCounts(a, b, c, d, e) == PodCountsOf(phases[..i])
    {
      assert phases[..i + 1] == phases[..i] + [phases[i]];
      var phase := phases[i];
      if phase == Some(Running) {
        a := a + 1;
      } else if phase == Some(Failed) {
        b := b + 1;
      } else if phase == Some(Pending) {
        c := c + 1;
      } else if phase == Some(Succeeded) {
        d := d + 1;
      } else if phase == Some(UnknownPhase) {
        e := e + 1;
      }
    }
    assert phases[..|phases|] == phases;
    counts := PodCounts(a, b, c, d, e);
  }

  /**
   * Each pod is counted at most once: the five counters and the pods in any
   * other phase add up to the number of pods.
   */
  lemma {:induction false} PodCountsPartition(phases: seq<Option<string>>)
    ensures var n := PodCountsOf(phases);
      n.running + n.failed + n.pending + n.succeeded + n.unknown + Unlisted(phases, PodPhases()) == |phases|
  {
    if phases != [] {
      var init := phases[..|phases| - 1];
      assert phases == init + [phases[|phases| - 1]];
      PodCountsPartition(init);
    }
  }
}
