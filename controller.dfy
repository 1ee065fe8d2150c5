/**
 * The applications datatable controller: the view state it keeps for one
 * table and the handlers that change it.
 */
module ApplicationsDatatable {
  import opened Sequences
  import opened ApplicationModels
  import opened ExpandedItems
  import TypeFilters
  import NamespaceDropdown
  import RowPredicates

  class ApplicationsDatatableController {
    /** KubernetesNamespaceHelper.isSystemNamespace, which is not part of this model. */
    const isSystemNs: string -> bool

    /** Bindings from the parent view and from the generic datatable. */
    var dataset: seq<Application>
    var filteredDataSet: seq<Application>
    var namespaces: Option<seq<Namespace>>
    var settingsLoaded: bool

    /** `settings.showSystem`. */
    var showSystem: bool

    /** `state.expandAll`, `state.expandedItems`, `state.namespace` and `state.namespaces`. */
    var expandAll: bool
    var expandedItems: seq<string>
    var namespace: string
    var namespaceOptions: seq<NamespaceOption>

    /** `filters.state.open`, `filters.state.enabled` and `filters.state.values`. */
    var filtersOpen: bool
    var filtersEnabled: bool
    var filterValues: seq<TypeFilter>

    /** The expanded-item list last handed to the datatable settings store, if any. */
    ghost var persistedExpandedItems: Option<seq<string>>

    /** The state the controller starts with; `filteredDataSet` is filled in later by the table. */
    constructor (dataset: seq<Application>, namespaces: Option<seq<Namespace>>, isSystemNs: string -> bool)
      ensures this.dataset == dataset && this.namespaces == namespaces && this.isSystemNs == isSystemNs
      ensures filteredDataSet == [] && !settingsLoaded && !showSystem
      ensures !expandAll && expandedItems == [] && namespace == "" && namespaceOptions == []
      ensures !filtersOpen && !filtersEnabled && filterValues == []
      ensures persistedExpandedItems.None?
    {
      this.dataset := dataset;
      this.namespaces := namespaces;
      this.isSystemNs := isSystemNs;
      filteredDataSet := [];
      settingsLoaded := false;
      showSystem := false;
      expandAll := false;
      expandedItems := [];
      namespace := "";
      namespaceOptions := [];
      filtersOpen := false;
      filtersEnabled := false;
      filterValues := [];
      persistedExpandedItems := None;
    }

    /** `isItemExpanded(item)`. */
    predicate IsItemExpanded(item: Application)
      reads this
    {
      item.id in expandedItems
    }

    /** `applyFilters(item)` against the current filter values. */
    predicate ApplyFilters(item: Application)
      reads this
    {
      TypeFilters.ApplyFilters(filterValues, item)
    }

    /** `expandItem(item, expanded)`: collapse or expand one row, then persist the list. */
    method ExpandItem(item: Application, expanded: bool)
      modifies this`expandedItems, this`persistedExpandedItems
      ensures expandedItems == SetExpanded(old(expandedItems), item.id, expanded)
      ensures IsItemExpanded(item) == expanded
      ensures forall id :: id != item.id ==> (id in expandedItems <==> id in old(expandedItems))
      ensures NoDuplicates(old(expandedItems)) ==> NoDuplicates(expandedItems)
      ensures persistedExpandedItems == Some(expandedItems)
    {
      if !expanded {
        expandedItems := Collapse(expandedItems, item.id);
      } else if item.id !in expandedItems {
        expandedItems := expandedItems + [item.id];
      }
      persistedExpandedItems := Some(expandedItems);
      if !expanded && NoDuplicates(old(expandedItems)) {
        CollapsePreservesNoDuplicates(old(expandedItems), item.id);
      }
    }

    /**
     * `expandAll()`: flip the flag, then expand or collapse every row of the
     * filtered data set; the rows outside it keep their state.
     */
    method ExpandAll()
      modifies this`expandAll, this`expandedItems, this`persistedExpandedItems
      ensures expandAll == !old(expandAll)
      ensures expandedItems == SetAllExpanded(old(expandedItems), Ids(filteredDataSet), expandAll)
      ensures forall item :: item in filteredDataSet ==> IsItemExpanded(item) == expandAll
      ensures forall id :: id !in Ids(filteredDataSet) ==> (id in expandedItems <==> id in old(expandedItems))
      ensures persistedExpandedItems == if filteredDataSet == [] then old(persistedExpandedItems) else Some(expandedItems)
    {
      expandAll := !expandAll;
      ghost var rows := Ids(filteredDataSet);
      var i := 0;
      while i < |filteredDataSet|
        invariant 0 <= i <= |filteredDataSet|
        invariant expandAll == !old(expandAll)
        invariant expandedItems == SetAllExpanded(old(expandedItems), rows[..i], expandAll)
        invariant persistedExpandedItems == if i == 0 then old(persistedExpandedItems) else Some(expandedItems)
      {
        assert rows[..i + 1][..i] == rows[..i] && rows[..i + 1][i] == filteredDataSet[i].id;
        ExpandItem(filteredDataSet[i], expandAll);
        i := i + 1;
      }
      assert rows[..i] == rows;
      SetAllExpandedMembership(old(expandedItems), rows, expandAll);
      forall item | item in filteredDataSet ensures item.id in rows {
        var k :| 0 <= k < |filteredDataSet| && filteredDataSet[k] == item;
        assert rows[k] == item.id;
      }
    }

    /** `expandItems(stored)`: adopt a stored list; a list as long as the dataset also sets the flag. */
    method ExpandItems(storedExpandedItems: seq<string>)
      modifies this`expandedItems, this`expandAll
      ensures expandedItems == storedExpandedItems
      ensures expandAll == (old(expandAll) || |storedExpandedItems| == |dataset|)
    {
      expandedItems := storedExpandedItems;
      if |expandedItems| == |dataset| {
        expandAll := true;
      }
    }

    /** `onDataRefresh()`, given what the settings store returns (None for null). */
    method OnDataRefresh(stored: Option<seq<string>>)
      modifies this`expandedItems, this`expandAll
      ensures stored.None? ==> expandedItems == old(expandedItems) && expandAll == old(expandAll)
      ensures stored.Some? ==> expandedItems == stored.value && expandAll == (old(expandAll) || |stored.value| == |dataset|)
    {
      if stored.Some? {
        ExpandItems(stored.value);
      }
    }

    /** `onStateFilterChange()`: the filter is enabled while some type is hidden. */
    method OnStateFilterChange()
      modifies this`filtersEnabled
      ensures filtersEnabled <==> exists f :: f in filterValues && !f.display
    {
      filtersEnabled := TypeFilters.AnyHidden(filterValues);
    }

    /** `prepareTableFromDataset()`: one displayed filter per distinct application type. */
    method PrepareTableFromDataset()
      modifies this`filterValues
      ensures filterValues == TypeFilters.TypeFiltersOf(dataset)
      ensures forall item :: item in dataset ==> ApplyFilters(item)
    {
      filterValues := TypeFilters.TypeFiltersOf(dataset);
      TypeFilters.PreparedFiltersAdmitEveryRow(dataset);
    }

    /**
     * `updateNamespace()`: once namespaces and settings are loaded, rebuild
     * the dropdown and move a selection that is no longer listed.
     */
    method UpdateNamespace()
      modifies this`namespaceOptions, this`namespace
      ensures namespaces.None? || !settingsLoaded ==>
        namespaceOptions == old(namespaceOptions) && namespace == old(namespace)
      ensures namespaces.Some? && settingsLoaded ==>
        && namespaceOptions == NamespaceDropdown.NamespaceOptions(namespaces.value, showSystem)
        && namespace == NamespaceDropdown.Reselect(namespaceOptions, old(namespace))
        && (namespace == "" || exists o :: o in namespaceOptions && o.name == namespace)
    {
      if namespaces.Some? && settingsLoaded {
        var allNamespacesOption := NamespaceDropdown.AllNamespacesOption();
        var visibleNamespaceOptions := NamespaceDropdown.VisibleOptions(namespaces.value, showSystem);
        namespaceOptions := [allNamespacesOption] + visibleNamespaceOptions;
        if namespace != "" && NamespaceDropdown.FindByName(namespaceOptions, namespace).None? {
          if |namespaceOptions| > 1 {
            var defaultNamespace := NamespaceDropdown.FindByName(namespaceOptions, NamespaceDropdown.DefaultNamespaceName);
            namespace := if defaultNamespace.Some? then defaultNamespace.value.value else namespaceOptions[1].value;
          } else {
            namespace := namespaceOptions[0].value;
          }
        }
        NamespaceDropdown.ReselectIsListed(namespaces.value, showSystem, old(namespace));
      }
    }
  }
}
