/**
 * The selection of the scene editor (`Ktisis/Scene/Editing/SelectState.cs`): an ordered list of
 * selected objects, most recently selected first, kept in step with each object's `Selected`
 * flag, and the click handler that edits it.
 */
module SceneSelection {
  import opened Common
  import opened Scenes

  /** The modifier of a click (`SelectFlags`): `Multiple` is the multi-select modifier. */
  datatype SelectFlags = None | Multiple

  /** Objects `GetManipulable` keeps: those implementing `IManipulable`. */
  predicate Manipulable(o: SceneObject)
  {
    "IManipulable" in o.types
  }

  /** The list after `AddItem(x)`: `x` taken out, then put in front. */
  function AddFront(s: seq<SceneObject>, x: SceneObject): seq<SceneObject>
  {
    [x] + RemoveFirst(s, x)
  }

  /** The list after `HandleClick`, from the list before, the item's flag and the modifier. */
  function ClickResult(s: seq<SceneObject>, item: SceneObject, isSelect: bool, flags: SelectFlags): seq<SceneObject>
  {
    var kept := if flags == Multiple then RemoveFirst(s, item) else [];
    if !isSelect || |s| > 1 then AddFront(kept, item) else kept
  }

  /**
   * `AddItem` on a duplicate-free list: the item comes first, exactly once, and the other objects
   * follow in their previous order.
   */
  lemma AddFrontOrder(s: seq<SceneObject>, x: SceneObject)
    requires NoDups(s)
    ensures AddFront(s, x)[0] == x && NoDups(AddFront(s, x))
    ensures AddFront(s, x)[1..] == Filter(s, y => y != x)
    ensures forall y :: y in AddFront(s, x) <==> y in s || y == x
  {
    RemoveFirstNoDups(s, x);
    RemoveFirstIsFilter(s, x, y => y != x);
    var r := AddFront(s, x);
    assert r[1..] == RemoveFirst(s, x);
    forall i, j | 0 <= i < j < |r| ensures r[i] != r[j] {
      if i == 0 {
        assert r[j] in RemoveFirst(s, x);
      } else {
        assert r[i] == r[1..][i - 1] && r[j] == r[1..][j - 1];
      }
    }
  }

  /** `RemoveItem` on a duplicate-free list: the item is gone and the rest keep their order. */
  lemma RemoveItemOrder(s: seq<SceneObject>, x: SceneObject)
    requires NoDups(s)
    ensures RemoveFirst(s, x) == Filter(s, y => y != x)
    ensures x !in RemoveFirst(s, x)
  {
    RemoveFirstIsFilter(s, x, y => y != x);
    RemoveFirstNoDups(s, x);
  }

  /**
   * A click without the modifier leaves only the item selected, except that clicking the only
   * selected object (or a flagged object when nothing else is listed) deselects everything.
   */
  lemma ClickSingle(s: seq<SceneObject>, item: SceneObject, isSelect: bool)
    ensures ClickResult(s, item, isSelect, SelectFlags.None) == if isSelect && |s| <= 1 then [] else [item]
  {
    assert RemoveFirst([], item) == [];
  }

  /** A modifier click on an unselected object puts it in front of the unchanged selection. */
  lemma ClickMultipleAdds(s: seq<SceneObject>, item: SceneObject)
    requires item !in s
    ensures ClickResult(s, item, false, Multiple) == [item] + s
  {
    assert RemoveFirst(s, item) == s;
  }

  /** A modifier click on the only selected object deselects it. */
  lemma ClickMultipleRemovesLast(s: seq<SceneObject>, item: SceneObject)
    requires |s| <= 1 && (item in s || s == [])
    ensures ClickResult(s, item, true, Multiple) == []
  {
    if s != [] {
      assert s == [item];
      assert IndexOf(s, item) == 0;
    }
  }

  /**
   * A modifier click with more than one object selected keeps the item selected and moves it to
   * the front; the other objects keep their order.
   */
  lemma ClickMultipleMovesFront(s: seq<SceneObject>, item: SceneObject, isSelect: bool)
    requires NoDups(s) && |s| > 1
    ensures ClickResult(s, item, isSelect, Multiple) == [item] + Filter(s, y => y != item)
  {
    RemoveFirstNoDups(s, item);
    RemoveFirstIsFilter(s, item, y => y != item);
    assert RemoveFirst(RemoveFirst(s, item), item) == RemoveFirst(s, item);
  }

  class SelectState {
    /** The selected objects (`_selected`), most recently added first. */
    var selection: seq<SceneObject>
    /** The scene graphs whose removal notifications this state has subscribed to. */
    var attachedTo: seq<SceneGraph>

    constructor ()
      ensures selection == [] && attachedTo == []
    {
      selection := [];
      attachedTo := [];
    }

    /** `Attach`: subscribes to the scene's removal notifications. */
    method Attach(scene: SceneGraph)
      modifies this`attachedTo
      ensures attachedTo == old(attachedTo) + [scene]
    {
      attachedTo := attachedTo + [scene];
    }

    /** `Count`. */
    function Count(): (r: nat)
      reads this
      ensures r == |selection|
    {
      |selection|
    }

    /** `GetManipulable`: the selected `IManipulable` objects, in selection order. */
    function GetManipulable(): (r: seq<SceneObject>)
      reads this
      ensures forall o :: o in r ==> o in selection && Manipulable(o)
      ensures forall o :: o in selection && Manipulable(o) ==> o in r
      ensures |r| <= |selection|
    {
      Filter(selection, o => Manipulable(o))
    }

    /** `Clear`: empties the list and leaves every flag as it was. */
    method Clear(ghost u: set<SceneObject>)
      modifies this`selection
      ensures selection == []
      ensures old(FlagsMirror(selection, u)) && old(selection) != [] ==> !FlagsMirror(selection, u)
    {
      ghost var before := selection;
      selection := [];
      if before != [] {
        assert before[0] in before;
      }
    }

    /** `AddItem`: flags the item and moves it (or adds it) to the front. */
    method AddItem(item: SceneObject, ghost u: set<SceneObject>)
      modifies this`selection, item`selected
      ensures item.selected && selection == AddFront(old(selection), item)
      ensures old(FlagsMirror(selection, u)) && item in u ==> FlagsMirror(selection, u)
    {
      item.selected := true;
      selection := RemoveFirst(selection, item);
      selection := [item] + selection;
      if old(FlagsMirror(selection, u)) && item in u {
        AddFrontOrder(old(selection), item);
      }
    }

    /** `RemoveItem`: clears the item's flag and takes it out of the list. */
    method RemoveItem(item: SceneObject, ghost u: set<SceneObject>)
      modifies this`selection, item`selected
      ensures !item.selected && selection == RemoveFirst(old(selection), item)
      ensures old(FlagsMirror(selection, u)) ==> FlagsMirror(selection, u)
    {
      item.selected := false;
      selection := RemoveFirst(selection, item);
      if old(FlagsMirror(selection, u)) {
        RemoveFirstNoDups(old(selection), item);
      }
    }

    /** `RemoveAll`: clears the flag of every listed object, then empties the list. */
    method RemoveAll(ghost u: set<SceneObject>)
      modifies this`selection, Listed(selection)`selected
      ensures selection == []
      ensures forall o :: o in old(selection) ==> !o.selected
      ensures old(FlagsMirror(selection, u)) ==> FlagsMirror(selection, u)
    {
      var i := 0;
      while i < |selection|
        invariant 0 <= i <= |selection| && selection == old(selection)
        invariant forall k :: 0 <= k < i ==> !selection[k].selected
        invariant forall o :: o in u && o !in selection[..i] ==> o.selected == old(o.selected)
      {
        selection[i].selected := false;
        i := i + 1;
      }
      assert selection[..i] == selection;
      selection := [];
    }

    /** `OnSceneObjectRemoved`: a removed object leaves the selection. */
    method OnSceneObjectRemoved(scene: SceneGraph, item: SceneObject, ghost u: set<SceneObject>)
      modifies this`selection, item`selected
      ensures !item.selected && selection == RemoveFirst(old(selection), item)
      ensures old(FlagsMirror(selection, u)) ==> FlagsMirror(selection, u) && item !in selection
    {
      RemoveItem(item, u);
      if old(FlagsMirror(selection, u)) {
        RemoveFirstNoDups(old(selection), item);
      }
    }

    /**
     * `HandleClick`: with the modifier the item is deselected, otherwise everything is; then the
     * item is selected again unless it was flagged and at most one object was listed.
     */
    method HandleClick(item: SceneObject, flags: SelectFlags, ghost u: set<SceneObject>)
      modifies this`selection, Listed(selection)`selected, item`selected
      ensures selection == ClickResult(old(selection), item, old(item.selected), flags)
      ensures old(FlagsMirror(selection, u)) && item in u ==> FlagsMirror(selection, u)
    {
      var isSelect := item.selected;
      var isMulti := Count() > 1;
      if flags == Multiple {
        RemoveItem(item, u);
      } else {
        RemoveAll(u);
      }
      if !isSelect || isMulti {
        AddItem(item, u);
      }
    }
  }

  /**
   * Delivers `ObjectRemoved` to the selection once for every object logged from position `n` on,
   * in log order.
   */
  method NotifyRemoved(scene: SceneGraph, sel: SelectState, n: nat, ghost u: set<SceneObject>)
    requires n <= |scene.removedLog|
    modifies sel`selection, Listed(scene.removedLog[n..])`selected
    ensures forall k :: n <= k < |scene.removedLog| ==> !scene.removedLog[k].selected
    ensures old(FlagsMirror(sel.selection, u)) ==> FlagsMirror(sel.selection, u)
    ensures old(FlagsMirror(sel.selection, u)) ==>
              forall k :: n <= k < |scene.removedLog| ==> scene.removedLog[k] !in sel.selection
  {
    ghost var mirrored := FlagsMirror(sel.selection, u);
    var i := n;
    while i < |scene.removedLog|
      invariant n <= i <= |scene.removedLog|
      invariant forall k :: n <= k < i ==> !scene.removedLog[k].selected
      invariant mirrored ==> FlagsMirror(sel.selection, u)
      invariant mirrored ==> forall k :: n <= k < i ==> scene.removedLog[k] !in sel.selection
    {
      assert scene.removedLog[i] in Listed(scene.removedLog[n..]) by {
        assert scene.removedLog[n..][i - n] == scene.removedLog[i];
      }
      sel.OnSceneObjectRemoved(scene, scene.removedLog[i], u);
      i := i + 1;
    }
  }

  /**
   * `SceneGraph.Remove` with this state attached: the removal, then each `OnSceneObjectRemoved`
   * notification in the order the graph raised them. Afterwards no object of the removed subtree
   * is flagged selected, and while flags and list agree none of them is listed.
   */
  method RemoveNotifying(scene: SceneGraph, sel: SelectState, item: SceneObject, ghost t: Tree,
                         ghost u: set<SceneObject>)
    requires scene in sel.attachedTo
    requires t.obj == item && Shaped(t) && Distinct(t) && item.parent !in Objs(t)
    modifies scene`objects, scene`removedLog, Objs(t)`removed, Objs(t)`parent, Objs(t)`children
    modifies ParentFrame(item)`children, sel`selection, Objs(t)`selected
    ensures scene.removedLog == old(scene.removedLog) + PostOrder(t)
    ensures forall o :: o in Objs(t) ==> o.removed && !o.selected
    ensures old(FlagsMirror(sel.selection, u)) ==> FlagsMirror(sel.selection, u)
    ensures old(FlagsMirror(sel.selection, u)) ==> forall o :: o in Objs(t) ==> o !in sel.selection
  {
    ghost var mirrored := FlagsMirror(sel.selection, u);
    var n := |scene.removedLog|;
    scene.Remove(item, t);
    PostOrderObjs(t);
    Allocated(t);
    ghost var post := PostOrder(t);
    assert scene.removedLog[n..] == post;
    assert mirrored ==> FlagsMirror(sel.selection, u);
    assert Listed(post) <= Objs(t);
    NotifyRemoved(scene, sel, n, u);
    forall o | o in Objs(t) ensures o.removed && !o.selected && (mirrored ==> o !in sel.selection) {
      assert o in post;
      var k :| 0 <= k < |post| && post[k] == o;
      assert scene.removedLog[n + k] == o;
    }
  }
}
