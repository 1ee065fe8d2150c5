/** The application-type column filter: its values and the two predicates over them. */
module TypeFilters {
  import opened Sequences
  import opened ApplicationModels

  /** The application types of the rows, in row order. */
  function Types(dataset: seq<Application>): (r: seq<ApplicationType>)
    ensures |r| == |dataset| && forall k :: 0 <= k < |dataset| ==> r[k] == dataset[k].applicationType
  {
    seq(|dataset|, k requires 0 <= k < |dataset| => dataset[k].applicationType)
  }

  /** `_.uniqBy` on the types: each type once, at the place of its first occurrence. */
  function DistinctTypes(types: seq<ApplicationType>): (r: seq<ApplicationType>)
    ensures NoDuplicates(r)
    ensures forall t :: t in r <==> t in types
    decreases |types|
  {
    if types == [] then []
    else
      var init, last := types[..|types| - 1], types[|types| - 1];
      assert types == init + [last];
      var rest := DistinctTypes(init);
      if last in rest then rest
      else
        NoDuplicatesAppend(rest, last);
        rest + [last]
  }

  /** The filter values `prepareTableFromDataset` computes: one displayed filter per type. */
  function TypeFiltersOf(dataset: seq<Application>): (r: seq<TypeFilter>)
    ensures var types := DistinctTypes(Types(dataset));
      |r| == |types| && forall k :: 0 <= k < |types| ==> r[k] == TypeFilter(types[k], true)
  {
    var types := DistinctTypes(Types(dataset));
    seq(|types|, k requires 0 <= k < |types| => TypeFilter(types[k], true))
  }

  /** `applyFilters(item)`: some displayed filter has the row's type. */
  predicate ApplyFilters(filters: seq<TypeFilter>, item: Application) {
    exists f :: f in filters && item.applicationType == f.applicationType && f.display
  }

  /** `onStateFilterChange`: the filter counts as enabled when some type is hidden. */
  predicate AnyHidden(filters: seq<TypeFilter>) {
    exists f :: f in filters && !f.display
  }

  /** The elements of `r` are ordered by the position of their first occurrence in `s`. */
  predicate InFirstOccurrenceOrder(r: seq<ApplicationType>, s: seq<ApplicationType>)
    requires forall t :: t in r ==> t in s
  {
    forall i, j :: 0 <= i < j < |r| ==> FirstIndex(s, r[i]) < FirstIndex(s, r[j])
  }

  /** The distinct types are listed in the order in which the types first occur. */
  lemma {:induction false} DistinctTypesFirstOccurrenceOrder(types: seq<ApplicationType>)
    ensures InFirstOccurrenceOrder(DistinctTypes(types), types)
    decreases |types|
  {
    if types != [] {
      var init, last := types[..|types| - 1], types[|types| - 1];
      assert types == init + [last];
      DistinctTypesFirstOccurrenceOrder(init);
      var rest := DistinctTypes(init);
      assert InFirstOccurrenceOrder(rest, init);
      forall t | t in rest ensures FirstIndex(types, t) == FirstIndex(init, t) {
        FirstIndexAppend(init, last, t);
      }
      var r := DistinctTypes(types);
      if last in rest {
        assert r == rest;
        forall i, j | 0 <= i < j < |r| ensures FirstIndex(types, r[i]) < FirstIndex(types, r[j]) {
          assert rest[i] in rest && rest[j] in rest;
          assert FirstIndex(init, rest[i]) < FirstIndex(init, rest[j]);
        }
      } else {
        assert r == rest + [last];
        assert types[..|init|] == init;
        FirstIndexUnique(types, last, |init|);
        forall i, j | 0 <= i < j < |r| ensures FirstIndex(types, r[i]) < FirstIndex(types, r[j]) {
          assert r[i] == rest[i] && rest[i] in rest;
          if j < |rest| {
            assert r[j] == rest[j] && rest[j] in rest;
            assert FirstIndex(init, rest[i]) < FirstIndex(init, rest[j]);
          } else {
            assert r[j] == last;
            assert FirstIndex(init, rest[i]) < |init|;
          }
        }
      }
    }
  }

  /** Every row's type has a filter, and every filter's type is some row's type. */
  lemma TypeFiltersCoverDataset(dataset: seq<Application>)
    ensures var fs := TypeFiltersOf(dataset);
      && (forall f :: f in fs ==> exists item :: item in dataset && item.applicationType == f.applicationType)
      && (forall item :: item in dataset ==> exists f :: f in fs && f.applicationType == item.applicationType)
  {
    var types := Types(dataset);
    var d := DistinctTypes(types);
    var fs := TypeFiltersOf(dataset);
    forall item | item in dataset ensures exists f :: f in fs && f.applicationType == item.applicationType {
      var k :| 0 <= k < |dataset| && dataset[k] == item;
      assert types[k] == item.applicationType;
      var m := FirstIndex(d, item.applicationType);
      assert fs[m] in fs && fs[m].applicationType == item.applicationType;
    }
    forall f | f in fs ensures exists item :: item in dataset && item.applicationType == f.applicationType {
      var m :| 0 <= m < |fs| && fs[m] == f;
      assert d[m] in d && d[m] == f.applicationType;
      var k :| 0 <= k < |types| && types[k] == f.applicationType;
      assert dataset[k] in dataset;
    }
  }

  /**
   * The filters built from a dataset: pairwise distinct types, every one
   * displayed, a filter for a type iff some row has that type, and listed in
   * the order of each type's first row.
   */
  lemma TypeFiltersOfDataset(dataset: seq<Application>)
    ensures var fs := TypeFiltersOf(dataset);
      && (forall i, j :: 0 <= i < j < |fs| ==> fs[i].applicationType != fs[j].applicationType)
      && (forall f :: f in fs ==> f.display)
      && (forall f :: f in fs ==> exists item :: item in dataset && item.applicationType == f.applicationType)
      && (forall item :: item in dataset ==> exists f :: f in fs && f.applicationType == item.applicationType)
      && InFirstOccurrenceOrder(DistinctTypes(Types(dataset)), Types(dataset))
      && (forall k :: 0 <= k < |fs| ==> fs[k].applicationType == DistinctTypes(Types(dataset))[k])
  {
    DistinctTypesFirstOccurrenceOrder(Types(dataset));
    TypeFiltersCoverDataset(dataset);
  }

  /** Freshly prepared filters hide nothing and let every row of the dataset through. */
  lemma PreparedFiltersAdmitEveryRow(dataset: seq<Application>)
    ensures !AnyHidden(TypeFiltersOf(dataset))
    ensures forall item :: item in dataset ==> ApplyFilters(TypeFiltersOf(dataset), item)
  {
    var fs := TypeFiltersOf(dataset);
    TypeFiltersOfDataset(dataset);
    forall item | item in dataset ensures ApplyFilters(fs, item) {
      var f :| f in fs && f.applicationType == item.applicationType;
      assert f.display;
    }
  }

  /** While no type is hidden, a row passes the filter exactly when its type has a filter. */
  lemma NothingHiddenAdmitsListedTypes(filters: seq<TypeFilter>, item: Application)
    requires !AnyHidden(filters)
    ensures ApplyFilters(filters, item) <==> exists f :: f in filters && f.applicationType == item.applicationType
  {
  }
}
