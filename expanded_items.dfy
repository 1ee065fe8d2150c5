/**
 * The list of expanded row ids (`state.expandedItems`) and how expanding,
 * collapsing and "expand all" change it, as functions on the list.
 */
module ExpandedItems {
  import opened Sequences

  /** Collapsing a row: every occurrence of its id is dropped, the rest keep their order. */
  function Collapse(ids: seq<string>, id: string): (r: seq<string>)
    ensures id !in r
    ensures forall x :: x != id ==> (x in r <==> x in ids)
    ensures multiset(r) == multiset(ids)[id := 0]
    ensures |r| <= |ids|
  {
    if ids == [] then []
    else
      assert ids == [ids[0]] + ids[1..];
      (if ids[0] == id then [] else [ids[0]]) + Collapse(ids[1..], id)
  }

  /** Expanding a row: its id is appended only when it is not listed yet. */
  function Expand(ids: seq<string>, id: string): (r: seq<string>)
    ensures forall x :: x in r <==> x in ids || x == id
    ensures |ids| <= |r| <= |ids| + 1 && r[..|ids|] == ids
    ensures id in ids ==> r == ids
    ensures NoDuplicates(ids) ==> NoDuplicates(r)
  {
    if id in ids then ids else ids + [id]
  }

  /** The list after one `expandItem(item, expanded)` call on a row with id `id`. */
  function SetExpanded(ids: seq<string>, id: string, expanded: bool): seq<string>
  {
    if !expanded then Collapse(ids, id) else Expand(ids, id)
  }

  /** The list after `expandItem(row, expanded)` was called on each of `rows`, first to last. */
  function SetAllExpanded(ids: seq<string>, rows: seq<string>, expanded: bool): seq<string>
    decreases |rows|
  {
    if rows == [] then ids
    else SetExpanded(SetAllExpanded(ids, rows[..|rows| - 1], expanded), rows[|rows| - 1], expanded)
  }

  /** Reference definition of collapsing many rows: keep exactly the ids not in `removed`, in order. */
  function Without(ids: seq<string>, removed: seq<string>): (r: seq<string>)
    ensures forall x :: x in r <==> x in ids && x !in removed
    ensures forall x :: x !in removed ==> multiset(r)[x] == multiset(ids)[x]
  {
    if ids == [] then []
    else
      assert ids == [ids[0]] + ids[1..];
      (if ids[0] in removed then [] else [ids[0]]) + Without(ids[1..], removed)
  }

  /** Collapsing keeps the surviving ids in their original order. */
  lemma {:induction false} CollapseIsSubsequence(ids: seq<string>, id: string)
    ensures IsSubsequence(Collapse(ids, id), ids)
    decreases |ids|
  {
    if ids != [] {
      CollapseIsSubsequence(ids[1..], id);
      var r := Collapse(ids, id);
      if ids[0] != id {
        assert r[0] == ids[0] && r[1..] == Collapse(ids[1..], id);
      } else {
        assert r == Collapse(ids[1..], id);
        assert r != [] ==> r[0] in r && r[0] != ids[0];
      }
    }
  }

  /** A filtered list is a subsequence of the list it was filtered from. */
  lemma {:induction false} WithoutIsSubsequence(ids: seq<string>, removed: seq<string>)
    ensures IsSubsequence(Without(ids, removed), ids)
    decreases |ids|
  {
    if ids != [] {
      WithoutIsSubsequence(ids[1..], removed);
      var r := Without(ids, removed);
      if ids[0] !in removed {
        assert r[0] == ids[0] && r[1..] == Without(ids[1..], removed);
      } else {
        assert r == Without(ids[1..], removed);
        assert r != [] ==> r[0] in r && r[0] != ids[0];
      }
    }
  }

  lemma {:induction false} CollapseWithout(ids: seq<string>, removed: seq<string>, id: string)
    ensures Collapse(Without(ids, removed), id) == Without(ids, removed + [id])
    decreases |ids|
  {
    if ids != [] {
      var a, t := ids[0], ids[1..];
      CollapseWithout(t, removed, id);
      var w := Without(t, removed);
      assert Without(ids, removed + [id]) == (if a in removed + [id] then [] else [a]) + Without(t, removed + [id]);
      if a in removed {
        assert Without(ids, removed) == w;
      } else {
        assert Without(ids, removed) == [a] + w;
        assert ([a] + w)[1..] == w;
        assert Collapse([a] + w, id) == (if a == id then [] else [a]) + Collapse(w, id);
      }
    }
  }

  /** Collapsing no ids is the identity. */
  lemma {:induction false} WithoutNothing(ids: seq<string>)
    ensures Without(ids, []) == ids
    decreases |ids|
  {
    if ids != [] {
      WithoutNothing(ids[1..]);
      assert ids == [ids[0]] + ids[1..];
    }
  }

  /** After "expand all", each processed row is listed iff the flag is set; every other id keeps its membership. */
  lemma {:induction false} SetAllExpandedMembership(ids: seq<string>, rows: seq<string>, expanded: bool)
    ensures forall x :: x in SetAllExpanded(ids, rows, expanded) <==> if x in rows then expanded else x in ids
    decreases |rows|
  {
    if rows != [] {
      var init := rows[..|rows| - 1];
      SetAllExpandedMembership(ids, init, expanded);
      assert rows == init + [rows[|rows| - 1]];
    }
  }

  /** Collapsing a set of rows is exactly filtering their ids out of the list, order kept. */
  lemma {:induction false} CollapseAllIsWithout(ids: seq<string>, rows: seq<string>)
    ensures SetAllExpanded(ids, rows, false) == Without(ids, rows)
    decreases |rows|
  {
    if rows == [] {
      WithoutNothing(ids);
    } else {
      var init := rows[..|rows| - 1];
      CollapseAllIsWithout(ids, init);
      CollapseWithout(ids, init, rows[|rows| - 1]);
      assert rows == init + [rows[|rows| - 1]];
    }
  }

  /** Expanding a set of rows only appends: the old list stays in front, and no duplicate is introduced. */
  lemma {:induction false} ExpandAllAppends(ids: seq<string>, rows: seq<string>)
    ensures |ids| <= |SetAllExpanded(ids, rows, true)|
    ensures SetAllExpanded(ids, rows, true)[..|ids|] == ids
    ensures NoDuplicates(ids) ==> NoDuplicates(SetAllExpanded(ids, rows, true))
    decreases |rows|
  {
    if rows != [] {
      var init := rows[..|rows| - 1];
      ExpandAllAppends(ids, init);
      var mid := SetAllExpanded(ids, init, true);
      assert mid[..|ids|] == ids;
      var r := Expand(mid, rows[|rows| - 1]);
      assert r[..|mid|] == mid;
      assert r[..|ids|] == r[..|mid|][..|ids|];
    }
  }

  /** Collapsing a row of a duplicate-free list leaves it duplicate-free. */
  lemma {:induction false} CollapsePreservesNoDuplicates(ids: seq<string>, id: string)
    requires NoDuplicates(ids)
    ensures NoDuplicates(Collapse(ids, id))
    decreases |ids|
  {
    if ids != [] {
      assert NoDuplicates(ids[1..]);
      CollapsePreservesNoDuplicates(ids[1..], id);
      assert ids[0] !in ids[1..];
      if ids[0] != id {
        NoDuplicatesPrepend(ids[0], Collapse(ids[1..], id));
      }
    }
  }
}
