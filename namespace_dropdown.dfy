/** The namespace dropdown: its options and how the selection survives a rebuild. */
module NamespaceDropdown {
  import opened ApplicationModels

  const AllNamespacesName: string := "All namespaces"
  const DefaultNamespaceName: string := "default"

  /** The first option: every namespace, with the empty value. */
  function AllNamespacesOption(): NamespaceOption {
    NamespaceOption(AllNamespacesName, "", false)
  }

  function OptionOf(ns: Namespace): NamespaceOption {
    NamespaceOption(ns.name, ns.name, ns.isSystem)
  }

  /** `k` is the first namespace that may be shown: a user namespace, or any when system resources are shown. */
  predicate IsFirstVisible(namespaces: seq<Namespace>, showSystem: bool, k: int) {
    && 0 <= k < |namespaces|
    && (showSystem || !namespaces[k].isSystem)
    && forall j :: 0 <= j < k ==> !showSystem && namespaces[j].isSystem
  }

  /** The namespaces shown, in the parent's order: system namespaces only when system resources are shown. */
  function VisibleOptions(namespaces: seq<Namespace>, showSystem: bool): (r: seq<NamespaceOption>)
    ensures forall o :: o in r <==> exists ns :: ns in namespaces && (showSystem || !ns.isSystem) && o == OptionOf(ns)
    ensures r == [] <==> forall ns :: ns in namespaces ==> !showSystem && ns.isSystem
    ensures |r| <= |namespaces|
  {
    if namespaces == [] then []
    else
      assert namespaces == [namespaces[0]] + namespaces[1..];
      (if !showSystem && namespaces[0].isSystem then [] else [OptionOf(namespaces[0])])
        + VisibleOptions(namespaces[1..], showSystem)
  }

  /** `state.namespaces` as `updateNamespace` rebuilds it. */
  function NamespaceOptions(namespaces: seq<Namespace>, showSystem: bool): seq<NamespaceOption> {
    [AllNamespacesOption()] + VisibleOptions(namespaces, showSystem)
  }

  /** The first option with the given name, if any. */
  function FindByName(options: seq<NamespaceOption>, name: string): (r: Option<NamespaceOption>)
    ensures r.Some? ==> r.value in options && r.value.name == name
    ensures r.None? <==> forall o :: o in options ==> o.name != name
    ensures r.Some? ==> exists k :: 0 <= k < |options| && options[k] == r.value && forall j :: 0 <= j < k ==> options[j].name != name
  {
    if options == [] then None
    else if options[0].name == name then Some(options[0])
    else
      assert forall o :: o in options ==> o == options[0] || o in options[1..];
      var r := FindByName(options[1..], name);
      if r.Some? then
        var k :| 0 <= k < |options| - 1 && options[1..][k] == r.value && forall j :: 0 <= j < k ==> options[1..][j].name != name;
        assert options[k + 1] == r.value && forall j :: 0 <= j < k + 1 ==> options[j].name != name;
        r
      else r
  }

  /** The selection after a rebuild: kept when empty or listed, otherwise "default", else the first namespace, else "". */
  function Reselect(options: seq<NamespaceOption>, current: string): string
    requires |options| > 0
  {
    if current != "" && FindByName(options, current).None? then
      if |options| > 1 then
        match FindByName(options, DefaultNamespaceName)
        case Some(o) => o.value
        case None => options[1].value
      else
        options[0].value
    else
      current
  }

  /** Filtering concatenated namespace lists concatenates the filtered lists. */
  lemma {:induction false} VisibleOptionsAppend(a: seq<Namespace>, b: seq<Namespace>, showSystem: bool)
    ensures VisibleOptions(a + b, showSystem) == VisibleOptions(a, showSystem) + VisibleOptions(b, showSystem)
    decreases |a|
  {
    if a != [] {
      var head := if !showSystem && a[0].isSystem then [] else [OptionOf(a[0])];
      assert (a + b)[0] == a[0] && (a + b)[1..] == a[1..] + b;
      assert VisibleOptions(a + b, showSystem) == head + VisibleOptions(a[1..] + b, showSystem);
      assert VisibleOptions(a, showSystem) == head + VisibleOptions(a[1..], showSystem);
      VisibleOptionsAppend(a[1..], b, showSystem);
    } else {
      assert a + b == b;
    }
  }

  /** The first option after "All namespaces" is the first namespace that may be shown. */
  lemma VisibleOptionsFirst(namespaces: seq<Namespace>, showSystem: bool, k: int)
    requires IsFirstVisible(namespaces, showSystem, k)
    ensures |VisibleOptions(namespaces, showSystem)| > 0
    ensures VisibleOptions(namespaces, showSystem)[0] == OptionOf(namespaces[k])
  {
    var before, rest := namespaces[..k], namespaces[k..];
    assert namespaces == before + rest;
    VisibleOptionsAppend(before, rest, showSystem);
    assert forall ns :: ns in before ==> !showSystem && ns.isSystem;
    assert rest[0] == namespaces[k];
  }

  /**
   * The rebuilt options: "All namespaces" first, then exactly the namespaces
   * that may be shown, the first of them in second place.
   */
  lemma NamespaceOptionsShape(namespaces: seq<Namespace>, showSystem: bool)
    ensures var options := NamespaceOptions(namespaces, showSystem);
      && |options| >= 1
      && options[0] == NamespaceOption("All namespaces", "", false)
      && (forall ns :: ns in namespaces ==> (OptionOf(ns) in options[1..] <==> showSystem || !ns.isSystem))
      && (forall o :: o in options[1..] ==> o.value == o.name && (showSystem || !o.isSystem))
      && (forall k :: IsFirstVisible(namespaces, showSystem, k) ==> |options| > 1 && options[1] == OptionOf(namespaces[k]))
      && (|options| == 1 <==> forall ns :: ns in namespaces ==> !showSystem && ns.isSystem)
  {
    var options := NamespaceOptions(namespaces, showSystem);
    forall k | IsFirstVisible(namespaces, showSystem, k)
      ensures |options| > 1 && options[1] == OptionOf(namespaces[k])
    {
      VisibleOptionsFirst(namespaces, showSystem, k);
    }
    if |options| > 1 {
      assert options[1] in options[1..];
    }
  }

  /**
   * The selection rule of `updateNamespace`: an empty or listed selection is
   * kept; a selection that vanished becomes "default" when it is listed, else
   * the first namespace listed, else the empty value of "All namespaces".
   */
  lemma ReselectRule(namespaces: seq<Namespace>, showSystem: bool, current: string)
    ensures var options := NamespaceOptions(namespaces, showSystem);
      var r := Reselect(options, current);
      var listed := exists o :: o in options && o.name == current;
      var defaultListed := exists ns :: ns in namespaces && ns.name == "default" && (showSystem || !ns.isSystem);
      && (current == "" || listed ==> r == current)
      && (current != "" && !listed && defaultListed ==> r == "default")
      && (forall k :: IsFirstVisible(namespaces, showSystem, k) && current != "" && !listed && !defaultListed ==>
            r == namespaces[k].name)
      && (current != "" && !listed && (forall ns :: ns in namespaces ==> !showSystem && ns.isSystem) ==> r == "")
  {
    var options := NamespaceOptions(namespaces, showSystem);
    if current != "" && FindByName(options, current).None? {
      NamespaceOptionsShape(namespaces, showSystem);
      if exists ns :: ns in namespaces && ns.name == "default" && (showSystem || !ns.isSystem) {
        var ns :| ns in namespaces && ns.name == "default" && (showSystem || !ns.isSystem);
        assert OptionOf(ns) in options;
        var found := FindByName(options, DefaultNamespaceName).value;
        assert found != options[0] && found in options;
        assert found in options[1..];
      } else if |options| > 1 {
        var found := FindByName(options, DefaultNamespaceName);
        assert found.Some? ==> found.value in options[1..];
      }
    }
  }

  /** After a rebuild the selection is empty or names a listed option. */
  lemma ReselectIsListed(namespaces: seq<Namespace>, showSystem: bool, current: string)
    ensures var options := NamespaceOptions(namespaces, showSystem);
      var r := Reselect(options, current);
      r == "" || exists o :: o in options && o.name == r
  {
  }

  /** Rebuilding twice with the same namespaces selects the same namespace as rebuilding once. */
  lemma ReselectIdempotent(namespaces: seq<Namespace>, showSystem: bool, current: string)
    ensures var options := NamespaceOptions(namespaces, showSystem);
      Reselect(options, Reselect(options, current)) == Reselect(options, current)
  {
  }
}
