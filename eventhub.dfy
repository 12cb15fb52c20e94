/**
 * The Event Hubs plumbing shared by both anomaly scripts: the metrics
 * filter naming every event hub of a namespace, and the namespace and
 * resource-group names read back out of a namespace resource URI.
 */
module EventHubs {
  import opened Wrappers
  import opened Strings
  import opened AzureIds

  /** `f"EntityName eq '{name}'"`. */
  function Clause(name: string): string
  {
    "EntityName eq '" + name + "'"
  }

  /** The clause of every name, in list order. */
  function Clauses(names: seq<string>): (cs: seq<string>)
    ensures |cs| == |names|
    ensures forall i | 0 <= i < |names| :: cs[i] == Clause(names[i])
  {
    seq(|names|, i requires 0 <= i < |names| => Clause(names[i]))
  }

  /**
   * The `dynamic_filter`: the clauses joined with `" or "`, or the clause of
   * the empty name when the namespace has no event hubs.
   */
  function Filter(names: seq<string>): string
  {
    if names == [] then "EntityName eq ''" else Join(Clauses(names), " or ")
  }

  /** An empty list of hubs falls back to the clause of the empty name. */
  lemma FilterOfNoHubs()
    ensures Filter([]) == Clause("")
  {
  }

  /** One hub gives its clause alone. */
  lemma FilterOfOneHub(name: string)
    ensures Filter([name]) == Clause(name)
  {
  }

  /**
   * Hubs appear in list order: one more hub at the end of the list adds
   * `" or "` and its clause at the end of the filter.
   */
  lemma FilterAppend(names: seq<string>, name: string)
    requires names != []
    ensures Filter(names + [name]) == Filter(names) + " or " + Clause(name)
  {
    assert Clauses(names + [name]) == Clauses(names) + [Clause(name)];
    JoinAppend(Clauses(names), Clause(name), " or ");
  }

  /** The resource URI the namespace loop of anomaliDetection-19-test.py builds. */
  function NamespaceUri(subscription: string, group: string, namespace: string): string
  {
    "" + "/" + "subscriptions" + "/" + subscription + "/" + "resourceGroups" + "/" + group
      + "/" + "providers" + "/" + "Microsoft.EventHub" + "/" + "namespaces" + "/" + namespace
  }

  /** `resource_uri.split("/")[-1]`: never fails, since a split has at least one piece. */
  function NamespaceName(uri: string): (name: string)
    ensures '/' !in name
  {
    var parts := Split(uri, '/');
    parts[|parts| - 1]
  }

  /**
   * The namespace name is the part of the URI after its last `/` (the
   * whole URI when it has none).
   */
  lemma NamespaceNameIsLastSegment(uri: string)
    ensures '/' in uri ==> exists front :: uri == front + "/" + NamespaceName(uri)
    ensures '/' !in uri ==> NamespaceName(uri) == uri
  {
    var parts := Split(uri, '/');
    JoinSplit(uri, '/');
    if '/' !in uri {
      SplitWithout(uri, '/');
    } else {
      SplitCount(uri, '/');
      assert multiset(uri)['/'] >= 1;
      var init := parts[..|parts| - 1];
      assert parts == init + [parts[|parts| - 1]];
      JoinAppend(init, parts[|parts| - 1], "/");
    }
  }

  /** The pieces of a namespace URI between its `/` separators. */
  function UriPieces(subscription: string, group: string, namespace: string): seq<string>
  {
    ["", "subscriptions", subscription, "resourceGroups", group,
     "providers", "Microsoft.EventHub", "namespaces", namespace]
  }

  lemma UriIsJoinOfPieces(subscription: string, group: string, namespace: string)
    ensures NamespaceUri(subscription, group, namespace) == Join(UriPieces(subscription, group, namespace), "/")
  {
    var parts := UriPieces(subscription, group, namespace);
    for k := 1 to 9
      invariant Join(parts[..k], "/") == Prefix(parts, k)
    {
      assert parts[..k + 1] == parts[..k] + [parts[k]];
      JoinAppend(parts[..k], parts[k], "/");
    }
    assert parts[..9] == parts;
    var p2 := "" + "/" + "subscriptions";
    var p4 := p2 + "/" + subscription + "/" + "resourceGroups";
    var p6 := p4 + "/" + group + "/" + "providers";
    var p8 := p6 + "/" + "Microsoft.EventHub" + "/" + "namespaces";
    assert Prefix(parts, 2) == p2;
    assert Prefix(parts, 4) == p4;
    assert Prefix(parts, 6) == p6;
    assert Prefix(parts, 8) == p8;
  }

  /** The first `k` pieces with a `/` after each but the last. */
  function Prefix(parts: seq<string>, k: nat): string
    requires 1 <= k <= |parts|
  {
    if k == 1 then parts[0] else Prefix(parts, k - 1) + "/" + parts[k - 1]
  }

  /**
   * Reading a URI built by the namespace loop gives back its resource group
   * and its namespace, as long as none of the three names contains `/`.
   */
  lemma UriRoundTrip(subscription: string, group: string, namespace: string)
    requires '/' !in subscription && '/' !in group && '/' !in namespace
    ensures ResourceGroup(NamespaceUri(subscription, group, namespace)) == Ok(group)
    ensures NamespaceName(NamespaceUri(subscription, group, namespace)) == namespace
  {
    var parts := UriPieces(subscription, group, namespace);
    UriIsJoinOfPieces(subscription, group, namespace);
    assert forall i | 0 <= i < |parts| :: '/' !in parts[i];
    SplitJoin(parts, '/');
  }
}
