/**
 * The per-row rules of the table: whether a row belongs to a system
 * namespace, whether it is shown and selectable, and whether it can be
 * expanded. Whether a namespace is a system namespace is decided by a
 * helper outside this model, passed in as `isSystemNs`.
 */
module RowPredicates {
  import opened ApplicationModels
  import opened PublishedUrls

  /**
   * `isSystemNamespace(item)`: a Helm release with at least one application
   * is a system row as soon as ANY of its applications is in a system
   * namespace; any other row asks about its own resource pool.
   */
  predicate IsSystemNamespace(isSystemNs: string -> bool, item: Application) {
    if item.kubernetesApplications.Some? && |item.kubernetesApplications.value| > 0 then
      exists app :: app in item.kubernetesApplications.value && isSystemNs(app.resourcePool)
    else
      isSystemNs(item.resourcePool)
  }

  /** `isDisplayed(item)`. */
  predicate IsDisplayed(isSystemNs: string -> bool, showSystem: bool, item: Application) {
    !IsSystemNamespace(isSystemNs, item) || showSystem
  }

  /** `allowSelection(item)`: rows of system namespaces cannot be selected. */
  predicate AllowSelection(isSystemNs: string -> bool, item: Application) {
    !IsSystemNamespace(isSystemNs, item)
  }

  /** `hasConfigurationSecrets(item)`. */
  predicate HasConfigurationSecrets(item: Application) {
    exists c :: c in item.configurations && c.hasData && c.kind == Secret
  }

  /** `isExpandable(item)`; a present list of applications counts even when empty. */
  predicate IsExpandable(item: Application) {
    item.kubernetesApplications.Some? || HasConfigurationSecrets(item) || GetPublishedUrls(item).Urls?
  }

  /**
   * A release with applications is a system row iff some application is in a
   * system namespace (not all of them); its own resource pool is then ignored.
   */
  lemma ReleaseIsSystemIffSomeApplicationIs(isSystemNs: string -> bool, item: Application)
    requires item.kubernetesApplications.Some? && |item.kubernetesApplications.value| > 0
    ensures IsSystemNamespace(isSystemNs, item) <==>
      exists k :: 0 <= k < |item.kubernetesApplications.value| && isSystemNs(item.kubernetesApplications.value[k].resourcePool)
  {
  }

  /** A release with applications is classified by its applications alone: its own resource pool does not matter. */
  lemma ReleaseIgnoresOwnPool(isSystemNs: string -> bool, item: Application, pool: string)
    requires item.kubernetesApplications.Some? && |item.kubernetesApplications.value| > 0
    ensures IsSystemNamespace(isSystemNs, item) == IsSystemNamespace(isSystemNs, item.(resourcePool := pool))
  {
  }

  /**
   * A row has secrets exactly when one of its configurations is a secret
   * holding data; a row of config maps only has none, and a row with such a
   * secret can always be expanded.
   */
  lemma HasConfigurationSecretsIff(item: Application)
    ensures HasConfigurationSecrets(item) <==>
      exists k :: 0 <= k < |item.configurations| && item.configurations[k] == Configuration(Secret, true)
    ensures (forall c :: c in item.configurations ==> c.kind == ConfigMap || !c.hasData) ==> !HasConfigurationSecrets(item)
    ensures HasConfigurationSecrets(item) ==> IsExpandable(item)
  {
  }

  /** A release mixing a system and a user application is treated as a system row. */
  lemma MixedReleaseIsSystem(isSystemNs: string -> bool, system: Application, user: Application, release: Application)
    requires isSystemNs(system.resourcePool) && !isSystemNs(user.resourcePool)
    requires release.kubernetesApplications == Some([user, system])
    ensures IsSystemNamespace(isSystemNs, release)
    ensures !AllowSelection(isSystemNs, release)
  {
  }

  /**
   * Shown and selectable rows: every selectable row is shown; with system
   * resources shown every row is shown; otherwise a row is shown exactly
   * when it is selectable.
   */
  lemma DisplayAndSelection(isSystemNs: string -> bool, showSystem: bool, item: Application)
    ensures AllowSelection(isSystemNs, item) ==> IsDisplayed(isSystemNs, showSystem, item)
    ensures showSystem ==> IsDisplayed(isSystemNs, showSystem, item)
    ensures !showSystem ==> (IsDisplayed(isSystemNs, showSystem, item) <==> AllowSelection(isSystemNs, item))
    ensures IsDisplayed(isSystemNs, showSystem, item) <==> !IsSystemNamespace(isSystemNs, item) || showSystem
  {
  }

  /**
   * A row can be expanded iff it lists applications, has a secret with data,
   * has an ingress rule with a host or IP, or has a load balancer address and
   * at least one port.
   */
  lemma IsExpandableIff(item: Application)
    ensures IsExpandable(item) <==>
      || item.kubernetesApplications.Some?
      || (exists c :: c in item.configurations && c.hasData && c.kind == Secret)
      || (exists p, rule :: p in item.publishedPorts && rule in p.ingressRules && HasAddress(rule))
      || (item.loadBalancerIPAddress != "" && |item.publishedPorts| > 0)
  {
    HasPublishedUrlsIff(item);
  }
}
