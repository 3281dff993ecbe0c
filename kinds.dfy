/**
 * The fixed table of resource kinds that are dumped per namespace, the API group
 * whose REST client serves each kind, and the `--skip-types` filter.
 */
module Kinds {

  /** The client groups of the generated clientset that the dump talks to. */
  datatype ApiGroup = Autoscaling | Batch | Apps | Storage | Extensions | Core

  /**
   * newMappingFactoring: every kind that is queried, mapped to the API group of the
   * list type its response is decoded into (`api.*List` is Core, `extensions.*List`
   * is Extensions, and so on).
   */
  const Mapping: map<string, ApiGroup> := map[
    "configmaps" := Core,
    "daemonsets" := Extensions,
    "deployments" := Extensions,
    "endpoints" := Core,
    "horizontalpodautoscalers" := Autoscaling,
    "ingresses" := Extensions,
    "jobs" := Batch,
    "limitranges" := Core,
    "networkpolicies" := Extensions,
    "persistentvolumeclaims" := Core,
    "persistentvolumes" := Core,
    "podsecuritypolicies" := Extensions,
    "podtemplates" := Core,
    "replicasets" := Extensions,
    "replicationcontrollers" := Core,
    "resourcequotas" := Core,
    "secrets" := Core,
    "services" := Core,
    "statefulsets" := Apps,
    "storageclasses" := Storage,
    "thirdpartyresources" := Extensions
  ]

  /** The kinds that the routing switch sends to the extensions client. */
  const ExtensionsKinds: set<string> := {
    "daemonsets", "deployments", "ingresses", "networkpolicies",
    "podsecuritypolicies", "replicasets", "thirdpartyresources"
  }

  /** Default value of the `--skip-types` flag. */
  const DefaultSkipTypes: seq<string> := ["serviceaccount"]

  /**
   * The `switch objectType` of dumpNamespace: which REST client serves a kind.
   * Total: every name not singled out goes to the core client.
   */
  function Route(kind: string): (g: ApiGroup)
    ensures g == Autoscaling <==> kind == "horizontalpodautoscalers"
    ensures g == Batch <==> kind == "jobs"
    ensures g == Apps <==> kind == "statefulsets"
    ensures g == Storage <==> kind == "storageclasses"
    ensures g == Extensions <==> kind in ExtensionsKinds
  {
    match kind
    case "horizontalpodautoscalers" => Autoscaling
    case "jobs" => Batch
    case "statefulsets" => Apps
    case "storageclasses" => Storage
    case "daemonsets" => Extensions
    case "deployments" => Extensions
    case "ingresses" => Extensions
    case "networkpolicies" => Extensions
    case "podsecuritypolicies" => Extensions
    case "replicasets" => Extensions
    case "thirdpartyresources" => Extensions
    case _ => Core
  }

  /** The routing switch agrees with the group of each kind's list type in the table. */
  lemma RouteAgreesWithMapping(kind: string)
    requires kind in Mapping
    ensures Route(kind) == Mapping[kind]
  {
  }

  /** Every kind the switch does not name is served by the core client. */
  lemma RouteDefaultIsCore(kind: string)
    requires kind !in ExtensionsKinds
    requires kind !in {"horizontalpodautoscalers", "jobs", "statefulsets", "storageclasses"}
    ensures Route(kind) == Core
  {
  }

  /** The default skip list names no kind of the table, so by default every kind is queried. */
  lemma DefaultSkipsNothing(kind: string)
    requires kind in Mapping
    ensures kind !in DefaultSkipTypes
  {
  }

  /** An iteration order of the table: each kind of the table exactly once. */
  predicate IsEnumeration(order: seq<string>)
  {
    && (forall i, j :: 0 <= i < j < |order| ==> order[i] != order[j])
    && (forall k :: k in order ==> k in Mapping)
    && (forall k :: k in Mapping ==> k in order)
  }

  /** skipType: whether `skip` is one of `names`; the loop returns as soon as it finds it. */
  method SkipType(skip: string, names: seq<string>) returns (r: bool)
    ensures r <==> exists i :: 0 <= i < |names| && names[i] == skip
    ensures names == [] ==> !r
  {
    for i := 0 to |names|
      invariant forall j :: 0 <= j < i ==> names[j] != skip
    {
      if skip == names[i] {
        return true;
      }
    }
    return false;
  }
}
