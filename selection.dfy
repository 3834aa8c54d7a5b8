/**
 * The ordered selections kept in session state: the debate participants of
 * index3.py, toggled by buttons and renamed from the edit form, and the
 * meeting attendees of index.py, kept in the order their boxes were ticked.
 * Both lists are changed in place with `append`, `remove` and index
 * assignment.
 */
module Selection {
  import opened Wrappers

  predicate Distinct(xs: seq<string>) {
    forall i, j :: 0 <= i < j < |xs| ==> xs[i] != xs[j]
  }

  /** `xs.remove(x)`: the list without its first `x`; the source only calls it when `x` is present. */
  function RemoveFirst(xs: seq<string>, x: string): (r: seq<string>)
    requires x in xs
    ensures |r| == |xs| - 1
    ensures multiset(r) == multiset(xs) - multiset{x}
    ensures forall k :: 0 <= k < |r| ==> r[k] == if k < Find(xs, x) then xs[k] else xs[k + 1]
  {
    var i := Find(xs, x);
    assert xs == xs[..i] + [x] + xs[i + 1..];
    xs[..i] + xs[i + 1..]
  }

  /** Removing a name from a list without repeats leaves no copy of it and no repeat. */
  lemma RemoveFirstDistinct(xs: seq<string>, x: string)
    requires x in xs && Distinct(xs)
    ensures x !in RemoveFirst(xs, x)
    ensures Distinct(RemoveFirst(xs, x))
    ensures forall y :: y != x ==> (y in RemoveFirst(xs, x) <==> y in xs)
  {
    var i := Find(xs, x);
    var r := RemoveFirst(xs, x);
    forall y | y != x ensures y in r <==> y in xs {
      if y in xs {
        var k :| 0 <= k < |xs| && xs[k] == y;
        assert k != i;
        assert r[if k < i then k else k - 1] == y;
      }
    }
  }

  /** A toggle button press: a selected name leaves the list, any other joins it at the end. */
  function Toggled(order: seq<string>, name: string): (r: seq<string>)
    ensures name !in order ==> r == order + [name]
    ensures name in order ==> r == RemoveFirst(order, name)
    ensures name in order ==> |r| == |order| - 1 && multiset(r) == multiset(order) - multiset{name}
  {
    if name in order then RemoveFirst(order, name) else order + [name]
  }

  /** Toggling keeps the list free of repeats and flips exactly the pressed name's membership. */
  lemma ToggledDistinct(order: seq<string>, name: string)
    requires Distinct(order)
    ensures Distinct(Toggled(order, name))
    ensures name in Toggled(order, name) <==> name !in order
    ensures forall y :: y != name ==> (y in Toggled(order, name) <==> y in order)
  {
    if name in order {
      RemoveFirstDistinct(order, name);
    }
  }

  /** Pressing an unselected name twice restores the list. */
  lemma ToggleTwice(order: seq<string>, name: string)
    requires name !in order
    ensures Toggled(Toggled(order, name), name) == order
  {
    var r := order + [name];
    var i := Find(r, name);
    assert r[|order|] == name;
    assert forall j :: 0 <= j < |order| ==> r[j] == order[j] != name;
    assert r[..i] == order;
  }

  /** Pressing a selected name twice moves it to the end; the others keep their order. */
  lemma ToggleTwiceSelected(order: seq<string>, name: string)
    requires name in order && Distinct(order)
    ensures Toggled(Toggled(order, name), name) == RemoveFirst(order, name) + [name]
  {
    RemoveFirstDistinct(order, name);
  }

  /**
   * The edit form's rename: an unchanged name leaves the list alone; otherwise
   * the first occurrence of `current` becomes `updated`, and `index` raising
   * for an absent name makes the form report an error with the list unchanged.
   */
  function Renamed(order: seq<string>, current: string, updated: string): (r: Option<seq<string>>)
    ensures r.None? <==> current != updated && current !in order
    ensures current == updated ==> r == Some(order)
    ensures current in order ==>
      r.Some? && |r.value| == |order| && r.value[Find(order, current)] == updated &&
      forall k :: 0 <= k < |order| && k != Find(order, current) ==> r.value[k] == order[k]
  {
    if current == updated then Some(order)
    else if current in order then Some(order[Find(order, current) := updated])
    else None
  }

  /** A rename to a name not yet in the list keeps it free of repeats and swaps one name for the other. */
  lemma RenamedDistinct(order: seq<string>, current: string, updated: string)
    requires Distinct(order) && current in order && updated !in order
    ensures Distinct(Renamed(order, current, updated).value)
    ensures current !in Renamed(order, current, updated).value
    ensures updated in Renamed(order, current, updated).value
  {
    var i := Find(order, current);
    var r := Renamed(order, current, updated).value;
    assert r[i] == updated;
    forall k | 0 <= k < |r| ensures r[k] != current {
      if k != i {
        assert order[k] != order[i];
      }
    }
  }

  /**
   * index.py's checkbox rule for one lead: a ticked name not yet listed is
   * appended, an unticked listed name is removed, anything else is left alone.
   */
  function Synced(order: seq<string>, name: string, checked: bool): (r: seq<string>)
    ensures checked && name in order ==> r == order
    ensures !checked && name !in order ==> r == order
    ensures checked && name !in order ==> r == order + [name]
    ensures !checked && name in order ==> r == RemoveFirst(order, name)
  {
    if checked && name !in order then order + [name]
    else if !checked && name in order then RemoveFirst(order, name)
    else order
  }

  /** After one checkbox is read, the list holds the name exactly when its box is ticked, with no repeats. */
  lemma SyncedFollowsBox(order: seq<string>, name: string, checked: bool)
    requires Distinct(order)
    ensures Distinct(Synced(order, name, checked))
    ensures name in Synced(order, name, checked) <==> checked
    ensures forall y :: y != name ==> (y in Synced(order, name, checked) <==> y in order)
  {
    if !checked && name in order {
      RemoveFirstDistinct(order, name);
    }
  }

  /** The scan `in`, `remove` and `index` perform: `Find` computed by a loop. */
  method Locate(names: seq<string>, name: string) returns (i: nat)
    ensures i == Find(names, name)
  {
    i := 0;
    while i < |names| && names[i] != name
      invariant i <= |names|
      invariant forall j :: 0 <= j < i ==> names[j] != name
    {
      i := i + 1;
    }
    if i < |names| {
      FindUnique(names, name, i);
    } else {
      NotFound(names, name);
    }
  }

  /** A name that occurs nowhere has no index. */
  lemma NotFound(xs: seq<string>, x: string)
    requires forall j :: 0 <= j < |xs| ==> xs[j] != x
    ensures Find(xs, x) == |xs|
  {
    assert x !in xs;
  }

  /** The first position is the only one before which the name does not occur. */
  lemma FindUnique(xs: seq<string>, x: string, i: nat)
    requires i < |xs| && xs[i] == x
    requires forall j :: 0 <= j < i ==> xs[j] != x
    ensures Find(xs, x) == i
  {
    var f := Find(xs, x);
    assert xs[f] == x && xs[i] == x;
  }

  /** `participant_order` on the debate page. */
  class ParticipantOrder {
    var names: seq<string>

    ghost predicate Valid()
      reads this
    {
      Distinct(names)
    }

    constructor ()
      ensures Valid() && names == []
    {
      names := [];
    }

    /** A participant's toggle button; a list free of repeats stays free of them. */
    method Toggle(name: string)
      modifies this
      ensures old(Valid()) ==> Valid()
      ensures names == Toggled(old(names), name)
    {
      if Valid() {
        ToggledDistinct(names, name);
      }
      var i := Locate(names, name);
      if i < |names| {
        names := names[..i] + names[i + 1..];
      } else {
        names := names + [name];
      }
    }

    /** The save button of the edit form: `false` when `index` fails on a changed name. */
    method Rename(current: string, updated: string) returns (ok: bool)
      modifies this
      ensures ok <==> current == updated || current in old(names)
      ensures ok ==> names == Renamed(old(names), current, updated).value
      ensures !ok ==> names == old(names)
    {
      ok := true;
      if current != updated {
        var i := Locate(names, current);
        if i < |names| {
          names := names[i := updated];
        } else {
          ok := false;
        }
      }
    }
  }

  /** `selection_order` on the meeting page. */
  class SelectionOrder {
    var names: seq<string>

    ghost predicate Valid()
      reads this
    {
      Distinct(names)
    }

    constructor ()
      ensures Valid() && names == []
    {
      names := [];
    }

    /** One lead's checkbox, read on a rerun. */
    method Sync(name: string, checked: bool)
      requires Valid()
      modifies this
      ensures Valid()
      ensures names == Synced(old(names), name, checked)
    {
      SyncedFollowsBox(names, name, checked);
      var i := Locate(names, name);
      if checked && i == |names| {
        names := names + [name];
      } else if !checked && i < |names| {
        names := names[..i] + names[i + 1..];
      }
    }
  }
}
