/**
 * The object selection of create.js: `selectedObjectMeshes`, `hoveredObjectMesh`
 * and the transform controls each selected object carries. Object meshes are
 * named by their identity; `None` stands for `null`.
 */
module ObjectSelection {
  import opened Wrappers

  type ObjectId = nat

  function Members(s: seq<ObjectId>): set<ObjectId>
  {
    set i | 0 <= i < |s| :: s[i]
  }

  predicate Distinct(s: seq<ObjectId>)
  {
    forall i, j :: 0 <= i < j < |s| ==> s[i] != s[j]
  }

  /** `s.indexOf(o)`: the first position of `o`, or -1. */
  function IndexOf(s: seq<ObjectId>, o: ObjectId): (r: int)
    ensures -1 <= r < |s|
    ensures r == -1 <==> o !in s
    ensures r != -1 ==> s[r] == o && o !in s[..r]
  {
    if s == [] then -1
    else if s[0] == o then 0
    else
      var r := IndexOf(s[1..], o);
      if r == -1 then -1 else (assert s[1..][..r] == s[1..r + 1]; r + 1)
  }

  /** The selection `_setSelectedObjectMesh(o, shiftKey)` leaves: without shift (or
      with `null`) just `o`, if any; with shift, `o` is taken out where it is, or
      else appended. */
  function Selected(s: seq<ObjectId>, o: Option<ObjectId>, shift: bool): seq<ObjectId>
  {
    if o.None? || !shift then (if o.Some? then [o.value] else [])
    else
      var i := IndexOf(s, o.value);
      if i != -1 then s[..i] + s[i + 1..] else s + [o.value]
  }

  /** Shift-selecting toggles `o` alone: it ends up selected exactly when it was
      not, and every other object keeps its membership. */
  lemma {:induction false} ToggleMembers(s: seq<ObjectId>, o: ObjectId)
    requires Distinct(s)
    ensures Members(Selected(s, Some(o), true)) ==
      if o in s then Members(s) - {o} else Members(s) + {o}
  {
    var t := Selected(s, Some(o), true);
    if o in s {
      var i := IndexOf(s, o);
      forall x | x in Members(t)
        ensures x in Members(s) - {o}
      {
        var j :| 0 <= j < |t| && t[j] == x;
        if j < i {
          assert t[j] == s[j];
        } else {
          assert t[j] == s[j + 1];
        }
      }
      forall x | x in Members(s) - {o}
        ensures x in Members(t)
      {
        var j :| 0 <= j < |s| && s[j] == x;
        if j < i {
          assert t[j] == x;
        } else {
          assert t[j - 1] == x;
        }
      }
    } else {
      forall x | x in Members(t)
        ensures x in Members(s) + {o}
      {
        var j :| 0 <= j < |t| && t[j] == x;
        if j < |s| {
          assert t[j] == s[j];
        }
      }
      assert t[|s|] == o;
      forall x | x in Members(s)
        ensures x in Members(t)
      {
        var j :| 0 <= j < |s| && s[j] == x;
        assert t[j] == x;
      }
    }
  }

  /** No transition selects an object twice. */
  lemma SelectedDistinct(s: seq<ObjectId>, o: Option<ObjectId>, shift: bool)
    requires Distinct(s)
    ensures Distinct(Selected(s, o, shift))
  {
    if o.Some? && shift {
      var i := IndexOf(s, o.value);
      if i != -1 {
        RemoveDistinct(s, i);
      } else {
        AppendDistinct(s, o.value);
      }
    }
  }

  /** Taking one entry out of a selection keeps it free of repeats. */
  lemma RemoveDistinct(s: seq<ObjectId>, i: nat)
    requires Distinct(s) && i < |s|
    ensures Distinct(s[..i] + s[i + 1..])
  {
    var t := s[..i] + s[i + 1..];
    forall a, b | 0 <= a < b < |t|
      ensures t[a] != t[b]
    {
      var a', b' := if a < i then a else a + 1, if b < i then b else b + 1;
      assert t[a] == s[a'] && t[b] == s[b'];
    }
  }

  /** Appending an object not yet selected keeps the selection free of repeats. */
  lemma AppendDistinct(s: seq<ObjectId>, o: ObjectId)
    requires Distinct(s) && o !in s
    ensures Distinct(s + [o])
  {
    var t := s + [o];
    forall a, b | 0 <= a < b < |t|
      ensures t[a] != t[b]
    {
      if b == |s| {
        assert t[a] == s[a] && t[b] == o;
      } else {
        assert t[a] == s[a] && t[b] == s[b];
      }
    }
  }

  /** Shift-selecting an unselected object twice leaves the selection as it was. */
  lemma ToggleTwice(s: seq<ObjectId>, o: ObjectId)
    requires o !in s
    ensures Selected(Selected(s, Some(o), true), Some(o), true) == s
  {
    var t := s + [o];
    assert IndexOf(t, o) == |s| by {
      assert t[|s|] == o && t[..|s|] == s;
    }
  }

  /** The selection unbinds some object's controls: every selected object's
      without shift, the toggled one when it was selected. */
  predicate Unbinds(s: seq<ObjectId>, o: Option<ObjectId>, shift: bool)
  {
    if o.None? || !shift then s != [] else o.value in s
  }

  class Selection {
    /** `selectedObjectMeshes`. */
    var selected: seq<ObjectId>
    /** `hoveredObjectMesh`. */
    var hovered: Option<ObjectId>
    /** The objects whose transform controls are attached (`o.control`). */
    var bound: set<ObjectId>
    /** `transformControlsHovered`. */
    var controlsHovered: bool

    /** No object is selected twice, and exactly the selected objects carry
        controls. */
    ghost predicate Valid()
      reads this
    {
      Distinct(selected) && bound == Members(selected)
    }

    constructor()
      ensures Valid() && selected == [] && hovered == None && !controlsHovered
    {
      selected, hovered, bound, controlsHovered := [], None, {}, false;
    }

    /** `_bindObjectMeshControls(o)`. */
    method Bind(o: ObjectId)
      modifies this
      ensures bound == old(bound) + {o}
      ensures selected == old(selected) && hovered == old(hovered) && controlsHovered == old(controlsHovered)
    {
      bound := bound + {o};
    }

    /** `_unbindObjectMeshControls(o)`: the controls go, and with them their hover. */
    method Unbind(o: ObjectId)
      modifies this
      ensures bound == old(bound) - {o} && !controlsHovered
      ensures selected == old(selected) && hovered == old(hovered)
    {
      bound := bound - {o};
      controlsHovered := false;
    }

    /** `_setSelectedObjectMesh(o, shiftKey)`: the selection becomes
        `Selected(old, o, shiftKey)`, the controls follow it, the hover is dropped
        exactly when the hovered object was selected before and is not any more,
        and the controls' hover is lost whenever some controls are unbound. */
    method SetSelected(o: Option<ObjectId>, shift: bool)
      requires Valid()
      modifies this
      ensures Valid()
      ensures selected == Selected(old(selected), o, shift)
      ensures hovered == if old(hovered).Some? && old(hovered).value in old(selected) && old(hovered).value !in selected
                         then None else old(hovered)
      ensures controlsHovered == (old(controlsHovered) && !Unbinds(old(selected), o, shift))
    {
      var wasHovered := hovered.Some? && hovered.value in selected;
      ghost var s0 := selected;
      if o.None? || !shift {
        for i := 0 to |selected|
          invariant selected == s0 && hovered == old(hovered)
          invariant bound == old(bound) - Members(selected[..i])
          invariant controlsHovered == (old(controlsHovered) && i == 0)
        {
          assert Members(selected[..i + 1]) == Members(selected[..i]) + {selected[i]} by {
            assert selected[..i + 1] == selected[..i] + [selected[i]];
          }
          Unbind(selected[i]);
        }
        assert selected[..|selected|] == selected;
        selected := if o.Some? then [o.value] else [];
        for i := 0 to |selected|
          invariant selected == (if o.Some? then [o.value] else []) && hovered == old(hovered)
          invariant bound == Members(selected[..i])
          invariant controlsHovered == (old(controlsHovered) && s0 == [])
        {
          assert Members(selected[..i + 1]) == Members(selected[..i]) + {selected[i]} by {
            assert selected[..i + 1] == selected[..i] + [selected[i]];
          }
          Bind(selected[i]);
        }
        assert selected[..|selected|] == selected;
      } else {
        var index := IndexOf(selected, o.value);
        ToggleMembers(selected, o.value);
        if index != -1 {
          Unbind(o.value);
          selected := selected[..index] + selected[index + 1..];
        } else {
          Bind(o.value);
          selected := selected + [o.value];
        }
      }
      SelectedDistinct(s0, o, shift);
      if wasHovered && hovered.value !in selected {
        hovered := None;
      }
    }
  }
}
