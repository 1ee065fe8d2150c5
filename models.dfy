/**
 * The records the applications datatable works on: one row per Kubernetes
 * application, its published ports with their ingress rules, its
 * configurations, and the namespaces offered in the namespace dropdown.
 *
 * Optional JavaScript fields whose truthiness matters are `Option`s; a list
 * field that may be absent is a `seq` when absence and the empty list behave
 * the same in every use the controller makes of it.
 */
module ApplicationModels {

  datatype Option<+T> = None | Some(value: T)

  /** The numeric value of a KubernetesApplicationTypes entry; the controller only compares it with `===`. */
  type ApplicationType = int

  /** One TLS entry of an ingress rule; an absent `hosts` list is the empty list. */
  datatype TlsEntry = TlsEntry(hosts: seq<string>)

  /** An ingress rule published for a port: `Host`, `IP`, `Path` and `TLS`. */
  datatype IngressRule = IngressRule(host: Option<string>, ip: Option<string>, path: string, tls: seq<TlsEntry>)

  /** A published port: its number and the ingress rules routed to it. */
  datatype PublishedPort = PublishedPort(port: nat, ingressRules: seq<IngressRule>)

  /** KubernetesConfigurationKinds. */
  datatype ConfigurationKind = ConfigMap | Secret

  /** A configuration attached to an application; `hasData` is the truthiness of its `Data`. */
  datatype Configuration = Configuration(kind: ConfigurationKind, hasData: bool)

  /**
   * A row of the table. `kubernetesApplications` is present for a Helm
   * release and lists the applications it groups; `loadBalancerIPAddress`
   * is "" when the row has none.
   */
  datatype Application = Application(
    id: string,
    resourcePool: string,
    applicationType: ApplicationType,
    kubernetesApplications: Option<seq<Application>>,
    configurations: seq<Configuration>,
    publishedPorts: seq<PublishedPort>,
    loadBalancerIPAddress: string)

  /** A namespace handed to the table by its parent view. */
  datatype Namespace = Namespace(name: string, isSystem: bool)

  /** An entry of the namespace dropdown. */
  datatype NamespaceOption = NamespaceOption(name: string, value: string, isSystem: bool)

  /** A column filter on the application type. */
  datatype TypeFilter = TypeFilter(applicationType: ApplicationType, display: bool)

  /** The ids of a list of rows, in order. */
  function Ids(rows: seq<Application>): (r: seq<string>)
    ensures |r| == |rows| && forall k :: 0 <= k < |rows| ==> r[k] == rows[k].id
  {
    seq(|rows|, k requires 0 <= k < |rows| => rows[k].id)
  }
}
