# Applications datatable view state

A Dafny model of the view-state bookkeeping of the Kubernetes applications
datatable in Portainer's web console
(`applicationsDatatableController.js`). The controller keeps, for one table:

- the list of expanded row ids, which "expand item", "expand all" and the
  restore from stored settings change;
- the published URLs of a row, built from its ingress rules and its load
  balancer address;
- the namespace dropdown, rebuilt from the namespaces the parent view
  supplies, with a rule for moving a selection that disappeared;
- the application-type column filter, with one value per type in the data set;
- the per-row rules for whether a row is a system row, shown, selectable or
  expandable.

Layout:

- `models.dfy` (`ApplicationModels`): the rows, ports, ingress rules,
  configurations, namespaces, dropdown options and type filters.
- `sequences.dfy` (`Sequences`): duplicate-freedom, subsequences and first
  positions, used by the statements below.
- `expanded_items.dfy` (`ExpandedItems`): the expanded-id list updates as
  functions, with lemmas about one update and about "expand all".
- `published_urls.dfy` (`PublishedUrls`) and `decimal.dfy` (`Decimal`):
  `getPublishedUrls`, with the decimal rendering of port numbers.
- `row_predicates.dfy` (`RowPredicates`): `isSystemNamespace`, `isDisplayed`,
  `allowSelection`, `hasConfigurationSecrets` and `isExpandable`.
- `type_filters.dfy` (`TypeFilters`): the filter values and `applyFilters`.
- `namespace_dropdown.dfy` (`NamespaceDropdown`): the options and the
  re-selection rule of `updateNamespace`.
- `controller.dfy` (`ApplicationsDatatable`): the controller as a class whose
  fields are the state the handlers reassign. Each handler is a method whose
  postcondition ties the new state to the functions above.

The system-namespace test of the namespace helper is not part of this model.
The controller takes it as a function `isSystemNs: string -> bool` and
assumes nothing about it.

The comment above `isSystemNamespace` speaks of a release whose charts are
"all" in a system namespace. The code tests whether "some" of them is, and the
model follows the code (`RowPredicates.MixedReleaseIsSystem`).

JavaScript truthiness is modelled where the code depends on it:

- `Host` and `IP` are optional strings. A value counts only when it is present
  and non-empty.
- A missing `LoadBalancerIPAddress` is the empty string.
- A present `KubernetesApplications` list makes a row expandable even when it
  is empty.

## Model

| member | source | states |
|---|---|---|
| `ExpandedItems.Collapse` | app/kubernetes/components/datatables/applications-datatable/applicationsDatatableController.js:58-59 | collapsing removes every occurrence of the id: the id is absent afterwards; every other id keeps its membership and its number of occurrences |
| `ExpandedItems.CollapseIsSubsequence` | app/kubernetes/components/datatables/applications-datatable/applicationsDatatableController.js:58-59 | the ids that survive a collapse keep their original order |
| `ExpandedItems.CollapsePreservesNoDuplicates` | app/kubernetes/components/datatables/applications-datatable/applicationsDatatableController.js:58-59 | collapsing a duplicate-free list leaves it duplicate-free |
| `ExpandedItems.Expand` | app/kubernetes/components/datatables/applications-datatable/applicationsDatatableController.js:61-63 | expanding appends the id at the end only if it is absent, and leaves a list that already holds it unchanged; the old list stays in front, and no duplicate is introduced |
| `ExpandedItems.SetExpanded` | app/kubernetes/components/datatables/applications-datatable/applicationsDatatableController.js:57-63 | the list after one `expandItem` call: `Collapse` when collapsing, `Expand` when expanding; its behaviour is stated by the contracts of those two and by `ApplicationsDatatableController.ExpandItem` |
| `ExpandedItems.Without` | app/kubernetes/components/datatables/applications-datatable/applicationsDatatableController.js:58-59 | reference definition of removing a group of ids: an id survives iff it was listed and is not removed, and survivors keep their number of occurrences |
| `ExpandedItems.SetAllExpanded` | app/kubernetes/components/datatables/applications-datatable/applicationsDatatableController.js:45 | the list after `expandItem` on each filtered row in turn; its behaviour is stated by `SetAllExpandedMembership`, `CollapseAllIsWithout` and `ExpandAllAppends` |
| `ExpandedItems.SetAllExpandedMembership` | app/kubernetes/components/datatables/applications-datatable/applicationsDatatableController.js:43-46 | after expanding or collapsing every row of a group, a row of the group is listed iff the flag is set, and every other id keeps its membership |
| `ExpandedItems.CollapseAllIsWithout` | app/kubernetes/components/datatables/applications-datatable/applicationsDatatableController.js:43-59 | collapsing the rows one after the other equals filtering all their ids out of the list at once, so the other ids keep their order |
| `ExpandedItems.ExpandAllAppends` | app/kubernetes/components/datatables/applications-datatable/applicationsDatatableController.js:43-63 | expanding the rows one after the other keeps the old list as a prefix, and a duplicate-free list stays duplicate-free |
| `ApplicationsDatatable.ApplicationsDatatableController.constructor` | app/kubernetes/components/datatables/applications-datatable/applicationsDatatableController.js:17-34 | the initial state: system resources hidden, nothing expanded, no namespace selected, no dropdown options, filter closed, disabled and empty |
| `ApplicationsDatatable.ApplicationsDatatableController.IsItemExpanded` | app/kubernetes/components/datatables/applications-datatable/applicationsDatatableController.js:48-50 | a row is expanded iff its id is in the expanded list; `ExpandItem` and `ExpandAll` state their effect through it |
| `ApplicationsDatatable.ApplicationsDatatableController.ApplyFilters` | app/kubernetes/components/datatables/applications-datatable/applicationsDatatableController.js:136-138 | `applyFilters` against the controller's current filter values; `PrepareTableFromDataset` states that every dataset row passes it afterwards |
| `ApplicationsDatatable.ApplicationsDatatableController.ExpandItem` | app/kubernetes/components/datatables/applications-datatable/applicationsDatatableController.js:56-65 | the row is expanded iff it was asked to be; no other id changes membership; duplicate-freedom is kept; the new list is the one persisted |
| `ApplicationsDatatable.ApplicationsDatatableController.ExpandAll` | app/kubernetes/components/datatables/applications-datatable/applicationsDatatableController.js:43-50 | the flag is negated; afterwards every filtered row is expanded iff the flag is set; ids outside the filtered rows keep their membership; the final list is persisted when there was a row |
| `ApplicationsDatatable.ApplicationsDatatableController.ExpandItems` | app/kubernetes/components/datatables/applications-datatable/applicationsDatatableController.js:67-72 | the list becomes the stored list; the flag becomes true when the stored list is as long as the dataset and is never cleared |
| `ApplicationsDatatable.ApplicationsDatatableController.OnDataRefresh` | app/kubernetes/components/datatables/applications-datatable/applicationsDatatableController.js:74-79 | a stored list is adopted as by `ExpandItems`; when the store holds nothing, nothing changes |
| `ApplicationsDatatable.ApplicationsDatatableController.OnStateFilterChange` | app/kubernetes/components/datatables/applications-datatable/applicationsDatatableController.js:140-142 | the filter is enabled iff some filter value is not displayed |
| `ApplicationsDatatable.ApplicationsDatatableController.PrepareTableFromDataset` | app/kubernetes/components/datatables/applications-datatable/applicationsDatatableController.js:144-147 | the filter values become one displayed filter per distinct type, and afterwards every dataset row passes the filter |
| `ApplicationsDatatable.ApplicationsDatatableController.UpdateNamespace` | app/kubernetes/components/datatables/applications-datatable/applicationsDatatableController.js:153-176 | nothing changes unless namespaces are bound and settings are loaded; otherwise the options are rebuilt, the selection follows the re-selection rule, and it ends up empty or naming a listed option |
| `PublishedUrls.AllIngressRules` | app/kubernetes/components/datatables/applications-datatable/applicationsDatatableController.js:105 | a rule is collected iff it belongs to some published port, and the result holds as many rules as all the ports together |
| `PublishedUrls.AllIngressRulesAppend` | app/kubernetes/components/datatables/applications-datatable/applicationsDatatableController.js:105 | collecting the rules of two port lists one after the other gives the first list's rules followed by the second's |
| `PublishedUrls.AllIngressRulesPositions` | app/kubernetes/components/datatables/applications-datatable/applicationsDatatableController.js:105 | the rules of port `k` sit, unchanged and in their order, right after the rules of the ports before it |
| `PublishedUrls.AddressedRules` | app/kubernetes/components/datatables/applications-datatable/applicationsDatatableController.js:106 | a rule is kept iff it has a host or an IP; the kept rules keep their order and each kept rule keeps its number of repeats |
| `PublishedUrls.HasAddress` | app/kubernetes/components/datatables/applications-datatable/applicationsDatatableController.js:106 | a rule is kept when its host or its IP is a non-empty string; `AddressedRules` states the filter it drives |
| `PublishedUrls.MatchingTls` | app/kubernetes/components/datatables/applications-datatable/applicationsDatatableController.js:108 | a TLS entry is kept iff its hosts include the rule's host |
| `PublishedUrls.Scheme` | app/kubernetes/components/datatables/applications-datatable/applicationsDatatableController.js:108 | https when some TLS entry lists the rule's host, else http; stated by `SchemeIsHttpsIffTlsCoversHost` |
| `PublishedUrls.IngressUrl` | app/kubernetes/components/datatables/applications-datatable/applicationsDatatableController.js:109 | scheme, `://`, the host or else the IP, then the path; stated by `IngressUrlShape` |
| `PublishedUrls.IngressUrls` | app/kubernetes/components/datatables/applications-datatable/applicationsDatatableController.js:107-110 | exactly one URL per kept rule, in the same order |
| `PublishedUrls.SchemeIsHttpsIffTlsCoversHost` | app/kubernetes/components/datatables/applications-datatable/applicationsDatatableController.js:108 | the scheme is https iff some TLS entry lists the rule's host, and http otherwise |
| `PublishedUrls.IngressUrlShape` | app/kubernetes/components/datatables/applications-datatable/applicationsDatatableController.js:107-110 | an ingress URL is `scheme://` then the host (or the IP when there is no host, never empty) then the path |
| `PublishedUrls.LoadBalancerUrls` | app/kubernetes/components/datatables/applications-datatable/applicationsDatatableController.js:113-116 | one `http://address:port` URL per published port, in port order |
| `Decimal.FromNat` | app/kubernetes/components/datatables/applications-datatable/applicationsDatatableController.js:115 | a port number is rendered as a non-empty string of decimal digits with no leading zero; 0 is rendered as "0" |
| `Decimal.ToNatFromNat` | app/kubernetes/components/datatables/applications-datatable/applicationsDatatableController.js:115 | reading the rendered port back gives the port number |
| `PublishedUrls.GetPublishedUrls` | app/kubernetes/components/datatables/applications-datatable/applicationsDatatableController.js:119-122 | a returned list is never empty; nothing is returned as the empty string |
| `PublishedUrls.PublishedUrlsLayout` | app/kubernetes/components/datatables/applications-datatable/applicationsDatatableController.js:103-123 | the result is the empty string iff there is no addressed rule and no load balancer URL; otherwise every ingress URL comes first, one per addressed rule, then one load balancer URL per port iff the address is set |
| `PublishedUrls.HasPublishedUrlsIff` | app/kubernetes/components/datatables/applications-datatable/applicationsDatatableController.js:103-123 | some URL is published iff some port has a rule with a host or IP, or the row has a load balancer address and a port |
| `RowPredicates.ReleaseIsSystemIffSomeApplicationIs` | app/kubernetes/components/datatables/applications-datatable/applicationsDatatableController.js:91-97 | a release with applications is a system row iff some application is in a system namespace |
| `RowPredicates.IsSystemNamespace` | app/kubernetes/components/datatables/applications-datatable/applicationsDatatableController.js:91-97 | a release with applications is a system row iff some application is in a system namespace; any other row asks about its own resource pool |
| `RowPredicates.ReleaseIgnoresOwnPool` | app/kubernetes/components/datatables/applications-datatable/applicationsDatatableController.js:93-95 | a release with applications is classified by its applications alone; changing its own resource pool changes nothing |
| `RowPredicates.MixedReleaseIsSystem` | app/kubernetes/components/datatables/applications-datatable/applicationsDatatableController.js:92-94 | a release with one system and one user application is a system row and cannot be selected |
| `RowPredicates.DisplayAndSelection` | app/kubernetes/components/datatables/applications-datatable/applicationsDatatableController.js:99-101 | a row is shown iff it is not a system row or system resources are shown; every selectable row is shown; with system resources hidden, shown and selectable coincide |
| `RowPredicates.IsDisplayed` | app/kubernetes/components/datatables/applications-datatable/applicationsDatatableController.js:99-101 | a row is shown iff it is not a system row or system resources are shown |
| `RowPredicates.AllowSelection` | app/kubernetes/components/datatables/applications-datatable/applicationsDatatableController.js:129-134 | a row can be selected iff it is not a system row |
| `RowPredicates.HasConfigurationSecrets` | app/kubernetes/components/datatables/applications-datatable/applicationsDatatableController.js:125-127 | the row has a configuration that is a secret holding data |
| `RowPredicates.HasConfigurationSecretsIff` | app/kubernetes/components/datatables/applications-datatable/applicationsDatatableController.js:125-127 | a row has secrets iff some configuration is a secret with data; a row with only config maps or empty secrets has none; a row with secrets is expandable |
| `RowPredicates.IsExpandableIff` | app/kubernetes/components/datatables/applications-datatable/applicationsDatatableController.js:52-54 | a row is expandable iff it lists applications, has a secret with data, has an ingress rule with a host or IP, or has a load balancer address and a port |
| `RowPredicates.IsExpandable` | app/kubernetes/components/datatables/applications-datatable/applicationsDatatableController.js:52-54 | the row lists applications (even none), has secrets with data, or publishes a URL |
| `TypeFilters.DistinctTypes` | app/kubernetes/components/datatables/applications-datatable/applicationsDatatableController.js:146 | the de-duplicated types hold no duplicate and hold exactly the types of the input |
| `TypeFilters.DistinctTypesFirstOccurrenceOrder` | app/kubernetes/components/datatables/applications-datatable/applicationsDatatableController.js:146 | the de-duplicated types are ordered by their first occurrence |
| `TypeFilters.TypeFiltersOf` | app/kubernetes/components/datatables/applications-datatable/applicationsDatatableController.js:145-146 | one displayed filter for each de-duplicated type, in the same order |
| `TypeFilters.TypeFiltersCoverDataset` | app/kubernetes/components/datatables/applications-datatable/applicationsDatatableController.js:144-147 | every row's type has a filter, and every filter's type belongs to some row |
| `TypeFilters.TypeFiltersOfDataset` | app/kubernetes/components/datatables/applications-datatable/applicationsDatatableController.js:144-147 | the filters have pairwise distinct types and are all displayed; there is one per type of the dataset, in order of each type's first row |
| `TypeFilters.PreparedFiltersAdmitEveryRow` | app/kubernetes/components/datatables/applications-datatable/applicationsDatatableController.js:136-147 | freshly prepared filters hide no type and let every dataset row through |
| `TypeFilters.NothingHiddenAdmitsListedTypes` | app/kubernetes/components/datatables/applications-datatable/applicationsDatatableController.js:136-142 | while no type is hidden, a row passes iff its type has a filter |
| `TypeFilters.ApplyFilters` | app/kubernetes/components/datatables/applications-datatable/applicationsDatatableController.js:136-138 | a row passes iff some filter has the row's type and is displayed |
| `TypeFilters.AnyHidden` | app/kubernetes/components/datatables/applications-datatable/applicationsDatatableController.js:140-142 | true iff some filter is not displayed |
| `NamespaceDropdown.VisibleOptions` | app/kubernetes/components/datatables/applications-datatable/applicationsDatatableController.js:156-163 | an option is listed iff it comes from a namespace that is not a system namespace, or system resources are shown; nothing is listed iff every namespace is hidden |
| `NamespaceDropdown.VisibleOptionsAppend` | app/kubernetes/components/datatables/applications-datatable/applicationsDatatableController.js:156-163 | filtering two namespace lists one after the other gives the first list's options followed by the second's, so the parent's order is kept |
| `NamespaceDropdown.VisibleOptionsFirst` | app/kubernetes/components/datatables/applications-datatable/applicationsDatatableController.js:156-163 | the first option listed comes from the first namespace that may be shown |
| `NamespaceDropdown.NamespaceOptions` | app/kubernetes/components/datatables/applications-datatable/applicationsDatatableController.js:155-164 | the rebuilt dropdown: "All namespaces" followed by the visible namespaces; its shape is stated by `NamespaceOptionsShape` |
| `NamespaceDropdown.FindByName` | app/kubernetes/components/datatables/applications-datatable/applicationsDatatableController.js:166-168 | the option found is the first one carrying the name; nothing is found iff no option carries the name |
| `NamespaceDropdown.Reselect` | app/kubernetes/components/datatables/applications-datatable/applicationsDatatableController.js:166-174 | the selection after a rebuild; its behaviour is stated by `ReselectRule`, `ReselectIsListed` and `ReselectIdempotent` |
| `NamespaceDropdown.NamespaceOptionsShape` | app/kubernetes/components/datatables/applications-datatable/applicationsDatatableController.js:155-164 | "All namespaces" with the empty value comes first; a namespace is listed after it iff it is not a system namespace or system resources are shown; listed namespaces have value equal to name; the second option is the first namespace that may be shown; "All namespaces" is alone iff every namespace is hidden |
| `NamespaceDropdown.ReselectRule` | app/kubernetes/components/datatables/applications-datatable/applicationsDatatableController.js:166-174 | an empty or listed selection is kept; a vanished one becomes "default" if it is listed, else the first namespace that may be shown, else the empty value when every namespace is hidden |
| `NamespaceDropdown.ReselectIsListed` | app/kubernetes/components/datatables/applications-datatable/applicationsDatatableController.js:166-174 | after the rebuild the selection is empty or names a listed option |
| `NamespaceDropdown.ReselectIdempotent` | app/kubernetes/components/datatables/applications-datatable/applicationsDatatableController.js:153-176 | rebuilding a second time with the same namespaces keeps the selection |

## Left out

- `api/http/handler/hostmanagement/fdo/profile_inspect.go` is not modelled. It is an HTTP handler that reads a profile record and a file and writes them out, with no logic of its own.
- The datatable settings store is external. Only the expanded-item list it is handed is modelled, as the ghost field `persistedExpandedItems`. The stored order, text filter, column filters and settings are not modelled.
- `$onInit` and `$onChanges` are framework wiring: they restore persisted settings and sync `showSystem` with the stacks table's settings. They are not modelled.
- `onSettingsShowSystemChange` and `onChangeNamespace` call parent-controller members that are not part of this model, so they are not modelled. The parent members are `setSystemResources`, `onChangeNamespaceDropdown`, `onTextFilterChange`, `onSettingsRepeaterChange` and `setDefaults`.
- `isExternalApplication` and `Authentication.isAdmin` are foreign helpers and are not modelled.
- The system-namespace test of the namespace helper is a parameter with no properties assumed.
- `filteredDataSet` is produced by the generic datatable's filter pipeline, which is not modelled. It is a field that callers set.
- Ordering and pagination belong to the generic datatable and are not modelled.
- `applicationTypeEnumToParamMap` is a constant table that none of the modelled operations read. Application types are integers compared for equality only.
- `PublishedUrls.IngressUrl`: an undefined `Path` would be printed as "undefined". The model takes `Path` to be a string.
- `Decimal.FromNat`: an undefined or non-integer `Port` would be printed differently. The model takes `Port` to be a natural number.
- `RowPredicates.HasConfigurationSecrets`: an undefined `Configurations` list is modelled as the empty list. Neither has secrets.
- `PublishedUrls.CoversHost`: a TLS entry without `hosts` is modelled as an empty host list. Both match no host.
- `ApplicationsDatatable.ApplicationsDatatableController.ExpandAll`: the store is written once per filtered row. The ghost field keeps only the last value written.
