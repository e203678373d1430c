/**
 * The selection of the object editor (`Ktisis/Editing/SelectState.cs`): the same bookkeeping as
 * the scene editor's selection, but an added object goes to the END of the list, the state
 * subscribes to a scene through `Update`, and every click raises `OnSelectionChanged` once the
 * list has been edited.
 */
module EditingSelection {
  import opened Common
  import opened Scenes
  import SceneSelection

  /** The modifier of a click (`SelectFlags`). */
  datatype SelectFlags = None | Ctrl

  /**
   * One `OnSelectionChanged` event: the clicked item, and the list the handlers see through the
   * sender when it is raised.
   */
  datatype Changed = Changed(item: SceneObject, selection: seq<SceneObject>)

  /** Objects `GetManipulable` keeps: those implementing `ITransform`. */
  predicate Transformable(o: SceneObject)
  {
    "ITransform" in o.types
  }

  /** The list after `AddItem(x)`: `x` taken out, then appended. */
  function AddBack(s: seq<SceneObject>, x: SceneObject): seq<SceneObject>
  {
    RemoveFirst(s, x) + [x]
  }

  /** The list after `HandleClick`, from the list before, the item's flag and the modifier. */
  function ClickResult(s: seq<SceneObject>, item: SceneObject, isSelect: bool, flags: SelectFlags): seq<SceneObject>
  {
    var kept := if flags == Ctrl then RemoveFirst(s, item) else [];
    if !isSelect || |s| > 1 then AddBack(kept, item) else kept
  }

  /**
   * `AddItem` on a duplicate-free list: the item comes last, exactly once, and the other objects
   * precede it in their previous order.
   */
  lemma AddBackOrder(s: seq<SceneObject>, x: SceneObject)
    requires NoDups(s)
    ensures AddBack(s, x)[|AddBack(s, x)| - 1] == x && NoDups(AddBack(s, x))
    ensures AddBack(s, x)[..|AddBack(s, x)| - 1] == Filter(s, y => y != x)
    ensures forall y :: y in AddBack(s, x) <==> y in s || y == x
  {
    RemoveFirstNoDups(s, x);
    RemoveFirstIsFilter(s, x, y => y != x);
    var r := AddBack(s, x);
    var n := |r| - 1;
    assert r[..n] == RemoveFirst(s, x);
    forall i, j | 0 <= i < j < |r| ensures r[i] != r[j] {
      if j == n {
        assert r[i] in RemoveFirst(s, x);
      } else {
        assert r[i] == r[..n][i] && r[j] == r[..n][j];
      }
    }
  }

  /**
   * A click without the modifier leaves only the item selected, except that clicking the only
   * selected object (or a flagged object when nothing else is listed) deselects everything.
   */
  lemma ClickSingle(s: seq<SceneObject>, item: SceneObject, isSelect: bool)
    ensures ClickResult(s, item, isSelect, SelectFlags.None) == if isSelect && |s| <= 1 then [] else [item]
  {
    assert RemoveFirst([], item) == [];
  }

  /** A Ctrl-click on an unselected object appends it to the unchanged selection. */
  lemma ClickCtrlAdds(s: seq<SceneObject>, item: SceneObject)
    requires item !in s
    ensures ClickResult(s, item, false, Ctrl) == s + [item]
  {
    assert RemoveFirst(s, item) == s;
  }

  /** A Ctrl-click on the only selected object deselects it. */
  lemma ClickCtrlRemovesLast(s: seq<SceneObject>, item: SceneObject)
    requires |s| <= 1 && (item in s || s == [])
    ensures ClickResult(s, item, true, Ctrl) == []
  {
    if s != [] {
      assert s == [item];
      assert IndexOf(s, item) == 0;
    }
  }

  /**
   * A Ctrl-click with more than one object selected keeps the item selected and moves it to the
   * end; the other objects keep their order.
   */
  lemma ClickCtrlMovesBack(s: seq<SceneObject>, item: SceneObject, isSelect: bool)
    requires NoDups(s) && |s| > 1
    ensures ClickResult(s, item, isSelect, Ctrl) == Filter(s, y => y != item) + [item]
  {
    RemoveFirstNoDups(s, item);
    RemoveFirstIsFilter(s, item, y => y != item);
    assert RemoveFirst(RemoveFirst(s, item), item) == RemoveFirst(s, item);
  }

  /**
   * Both editors' click handlers select the same objects: the lists differ only in where the
   * clicked item goes.
   */
  lemma SameTruthTable(s: seq<SceneObject>, item: SceneObject, isSelect: bool, ctrl: bool)
    requires NoDups(s)
    ensures var flags := if ctrl then Ctrl else SelectFlags.None;
            var other := if ctrl then SceneSelection.Multiple else SceneSelection.SelectFlags.None;
            forall y :: y in ClickResult(s, item, isSelect, flags) <==>
                        y in SceneSelection.ClickResult(s, item, isSelect, other)
  {
    var kept := if ctrl then RemoveFirst(s, item) else [];
    RemoveFirstNoDups(s, item);
    assert NoDups(kept);
    AddBackOrder(kept, item);
    SceneSelection.AddFrontOrder(kept, item);
  }

  /** `Clear` breaks the agreement of flags and list whenever something was listed. */
  lemma ClearBreaksMirror(before: seq<SceneObject>, u: set<SceneObject>)
    requires FlagsMirror(before, u) && before != []
    ensures !FlagsMirror([], u)
  {
    assert before[0] in before;
  }

  class SelectState {
    /** The selected objects (`_selected`), most recently added last. */
    var selection: seq<SceneObject>
    /** The scene graphs whose removal notifications this state has subscribed to. */
    var attachedTo: seq<SceneGraph>
    /** The `OnSelectionChanged` events raised so far, oldest first. */
    var changes: seq<Changed>

    constructor ()
      ensures selection == [] && attachedTo == [] && changes == []
    {
      selection := [];
      attachedTo := [];
      changes := [];
    }

    /** `Update`: with a scene, subscribes to its removal notifications; without one, `Clear`s. */
    method Update(scene: SceneGraph?)
      modifies this`selection, this`attachedTo
      ensures scene != null ==> attachedTo == old(attachedTo) + [scene] && selection == old(selection)
      ensures scene == null ==> attachedTo == old(attachedTo) && selection == []
    {
      if scene != null {
        attachedTo := attachedTo + [scene];
      } else {
        Clear();
      }
    }

    /** `Count`. */
    function Count(): (r: nat)
      reads this
      ensures r == |selection|
    {
      |selection|
    }

    /** `GetManipulable`: the selected `ITransform` objects, in selection order. */
    function GetManipulable(): (r: seq<SceneObject>)
      reads this
      ensures forall o :: o in r ==> o in selection && Transformable(o)
      ensures forall o :: o in selection && Transformable(o) ==> o in r
      ensures |r| <= |selection|
    {
      Filter(selection, o => Transformable(o))
    }

    /** `Clear`: empties the list and leaves every flag as it was. */
    method Clear()
      modifies this`selection
      ensures selection == []
    {
      selection := [];
    }

    /** `AddItem`: flags the item and moves it (or appends it) to the end. */
    method AddItem(item: SceneObject, ghost u: set<SceneObject>)
      modifies this`selection, item`selected
      ensures item.selected && selection == AddBack(old(selection), item)
      ensures old(FlagsMirror(selection, u)) && item in u ==> FlagsMirror(selection, u)
    {
      item.selected := true;
      selection := RemoveFirst(selection, item);
      selection := selection + [item];
      if old(FlagsMirror(selection, u)) && item in u {
        AddBackOrder(old(selection), item);
      }
    }

    /** `RemoveItem`: clears the item's flag and takes it out of the list. */
    method RemoveItem(item: SceneObject, ghost u: set<SceneObject>)
      modifies this`selection, item`selected
      ensures !item.selected && selection == RemoveFirst(old(selection), item)
      ensures old(FlagsMirror(selection, u)) ==> FlagsMirror(selection, u) && item !in selection
    {
      item.selected := false;
      selection := RemoveFirst(selection, item);
      if old(FlagsMirror(selection, u)) {
        RemoveFirstNoDups(old(selection), item);
      }
    }

    /** `RemoveAll`: clears the flag of every listed object, then empties the list. */
    method RemoveAll(ghost u: set<SceneObject>)
      modifies this`selection, Listed(selection)`selected
      ensures selection == []
      ensures forall o :: o in old(selection) ==> !o.selected
      ensures old(FlagsMirror(selection, u)) ==> FlagsMirror(selection, u)
    {
      var i := 0;
      while i < |selection|
        invariant 0 <= i <= |selection| && selection == old(selection)
        invariant forall k :: 0 <= k < i ==> !selection[k].selected
        invariant forall o :: o in u && o !in selection[..i] ==> o.selected == old(o.selected)
      {
        selection[i].selected := false;
        i := i + 1;
      }
      assert selection[..i] == selection;
      selection := [];
    }

    /** `OnSceneObjectRemoved`: a removed object leaves the selection. */
    method OnSceneObjectRemoved(scene: SceneGraph, item: SceneObject, ghost u: set<SceneObject>)
      modifies this`selection, item`selected
      ensures !item.selected && selection == RemoveFirst(old(selection), item)
      ensures old(FlagsMirror(selection, u)) ==> FlagsMirror(selection, u) && item !in selection
    {
      RemoveItem(item, u);
    }

    /**
     * `HandleClick`: with Ctrl the item is deselected, otherwise everything is; then the item is
     * selected again unless it was flagged and at most one object was listed. Afterwards exactly
     * one `OnSelectionChanged` event is raised, and its handlers see the edited list.
     */
    method HandleClick(item: SceneObject, flags: SelectFlags, ghost u: set<SceneObject>)
      modifies this`selection, this`changes, Listed(selection)`selected, item`selected
      ensures selection == ClickResult(old(selection), item, old(item.selected), flags)
      ensures changes == old(changes) + [Changed(item, selection)]
      ensures old(FlagsMirror(selection, u)) && item in u ==> FlagsMirror(selection, u)
    {
      var isSelect := item.selected;
      var isMulti := Count() > 1;
      if flags == Ctrl {
        RemoveItem(item, u);
      } else {
        RemoveAll(u);
      }
      if !isSelect || isMulti {
        AddItem(item, u);
      }
      changes := changes + [Changed(item, selection)];
    }
  }

  /**
   * Delivers `OnSceneObjectRemoved` to the selection once for every object logged from position
   * `n` on, in log order.
   */
  method NotifyRemoved(scene: SceneGraph, sel: SelectState, n: nat, ghost u: set<SceneObject>)
    requires n <= |scene.removedLog|
    modifies sel`selection, Listed(scene.removedLog[n..])`selected
    ensures forall k :: n <= k < |scene.removedLog| ==> !scene.removedLog[k].selected
    ensures old(FlagsMirror(sel.selection, u)) ==> FlagsMirror(sel.selection, u)
    ensures old(FlagsMirror(sel.selection, u)) ==>
              forall k :: n <= k < |scene.removedLog| ==> scene.removedLog[k] !in sel.selection
  {
    ghost var mirrored := FlagsMirror(sel.selection, u);
    var i := n;
    while i < |scene.removedLog|
      invariant n <= i <= |scene.removedLog|
      invariant forall k :: n <= k < i ==> !scene.removedLog[k].selected
      invariant mirrored ==> FlagsMirror(sel.selection, u)
      invariant mirrored ==> forall k :: n <= k < i ==> scene.removedLog[k] !in sel.selection
    {
      assert scene.removedLog[i] in Listed(scene.removedLog[n..]) by {
        assert scene.removedLog[n..][i - n] == scene.removedLog[i];
      }
      sel.OnSceneObjectRemoved(scene, scene.removedLog[i], u);
      i := i + 1;
    }
  }

  /**
   * `SceneGraph.Remove` on a scene this state was `Update`d with: the removal, then each
   * `OnSceneObjectRemoved` notification in the order the graph raised them. Afterwards no object
   * of the removed subtree is flagged selected, and while flags and list agree none is listed.
   */
  method RemoveNotifying(scene: SceneGraph, sel: SelectState, item: SceneObject, ghost t: Tree,
                         ghost u: set<SceneObject>)
    requires scene in sel.attachedTo
    requires t.obj == item && Shaped(t) && Distinct(t) && item.parent !in Objs(t)
    modifies scene`objects, scene`removedLog, Objs(t)`removed, Objs(t)`parent, Objs(t)`children
    modifies ParentFrame(item)`children, sel`selection, Objs(t)`selected
    ensures scene.removedLog == old(scene.removedLog) + PostOrder(t)
    ensures forall o :: o in Objs(t) ==> o.removed && !o.selected
    ensures old(FlagsMirror(sel.selection, u)) ==> FlagsMirror(sel.selection, u)
    ensures old(FlagsMirror(sel.selection, u)) ==> forall o :: o in Objs(t) ==> o !in sel.selection
  {
    ghost var mirrored := FlagsMirror(sel.selection, u);
    var n := |scene.removedLog|;
    scene.Remove(item, t);
    PostOrderObjs(t);
    Allocated(t);
    ghost var post := PostOrder(t);
    assert scene.removedLog[n..] == post;
    assert mirrored ==> FlagsMirror(sel.selection, u);
    assert Listed(post) <= Objs(t);
    NotifyRemoved(scene, sel, n, u);
    forall o | o in Objs(t) ensures o.removed && !o.selected && (mirrored ==> o !in sel.selection) {
      assert o in post;
      var k :| 0 <= k < |post| && post[k] == o;
      assert scene.removedLog[n + k] == o;
    }
  }
}
