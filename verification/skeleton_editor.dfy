/**
 * The legacy skeleton overlay (`Ktisis/Overlay/SkeletonEditor.cs`): building one bone list per
 * partial skeleton of the subject's model, flagging each list's first bone as its root, and linking
 * the bones of the main skeleton to the partials whose root bone carries the same name.
 *
 * The subject's model is passed in as its havok index: one entry per partial skeleton, holding the
 * names of the pose's bones, or nothing for a partial without a pose. `BoneList`'s constructor is
 * not part of this model beyond what `BuildSkeleton` uses: one fresh bone per name, in order.
 */
module Skeletons {
  import opened Common

  /** An entry of the model's havok index: the bone names of its pose, if it has one. */
  datatype IndexEntry = IndexEntry(pose: Option<seq<string>>)

  /** Every pose of the index has at least one bone (`bones[0]` is read for each). */
  predicate PosesHaveBones(entries: seq<IndexEntry>)
  {
    forall i :: 0 <= i < |entries| && entries[i].pose.Some? ==> entries[i].pose.value != []
  }

  /** The indices of the entries that have a pose, in index order. */
  function PoseIndices(entries: seq<IndexEntry>): seq<int>
  {
    if entries == [] then []
    else PoseIndices(entries[..|entries| - 1]) + (if entries[|entries| - 1].pose.Some? then [|entries| - 1] else [])
  }

  /** One bone list is built per entry with a pose, in ascending index order. */
  lemma {:induction false} PoseIndicesSpec(entries: seq<IndexEntry>)
    ensures StrictlyIncreasing(PoseIndices(entries))
    ensures forall i :: i in PoseIndices(entries) <==> 0 <= i < |entries| && entries[i].pose.Some?
  {
    if entries != [] {
      var init := entries[..|entries| - 1];
      PoseIndicesSpec(init);
      assert forall i :: 0 <= i < |init| ==> init[i] == entries[i];
      if entries[|entries| - 1].pose.Some? {
        IncreasingSnoc(PoseIndices(init), |entries| - 1);
      }
    }
  }

  /** Entry `i` is linked under `name`: it is not the first, has a pose, and its root bone is `name`. */
  predicate LinksUnder(entries: seq<IndexEntry>, name: string, i: int)
  {
    0 < i < |entries| && entries[i].pose.Some? && entries[i].pose.value != [] && entries[i].pose.value[0] == name
  }

  /** `linkList`: each root-bone name of a later partial, mapped to the indices of those partials. */
  function LinkTable(entries: seq<IndexEntry>): map<string, seq<int>>
    requires PosesHaveBones(entries)
  {
    if entries == [] then map[]
    else
      var init := entries[..|entries| - 1];
      assert PosesHaveBones(init) by {
        forall i | 0 <= i < |init| ensures init[i] == entries[i] { }
      }
      var m := LinkTable(init);
      var i := |entries| - 1;
      var pose := entries[i].pose;
      if i > 0 && pose.Some? then AddLink(m, pose.value[0], i) else m
  }

  /** `linkList[name].Add(i)`, the list created first when the name is new. */
  function AddLink(m: map<string, seq<int>>, name: string, i: int): map<string, seq<int>>
  {
    m[name := (if name in m then m[name] else []) + [i]]
  }

  /**
   * The link table holds exactly the names of later partials' root bones; each maps to the
   * ascending indices of the partials whose root bone has that name.
   */
  lemma {:induction false} LinkTableSpec(entries: seq<IndexEntry>)
    requires PosesHaveBones(entries)
    ensures forall name :: name in LinkTable(entries) ==> LinkTable(entries)[name] != [] && StrictlyIncreasing(LinkTable(entries)[name])
    ensures forall name, i :: name in LinkTable(entries) && i in LinkTable(entries)[name] <==> LinksUnder(entries, name, i)
    ensures forall name, i :: LinksUnder(entries, name, i) ==> name in LinkTable(entries)
  {
    if entries != [] {
      var init := entries[..|entries| - 1];
      assert forall i :: 0 <= i < |init| ==> init[i] == entries[i];
      LinkTableSpec(init);
      var m := LinkTable(init);
      var n := |entries| - 1;
      forall name, i | LinksUnder(entries, name, i)
        ensures name in LinkTable(entries) && i in LinkTable(entries)[name]
      {
        if i < n {
          assert LinksUnder(init, name, i);
        }
      }
      forall name | name in LinkTable(entries)
        ensures StrictlyIncreasing(LinkTable(entries)[name])
        ensures forall i :: i in LinkTable(entries)[name] ==> LinksUnder(entries, name, i)
      {
        if name in m {
          assert forall i :: i in m[name] ==> LinksUnder(init, name, i) && i < n;
          if LinksUnder(entries, name, n) {
            IncreasingSnoc(m[name], n);
          }
        }
      }
    }
  }

  /** A bone of a bone list, with the flags the overlay sets on it. */
  class Bone {
    const name: string
    const index: int
    var isRoot: bool
    var linkedTo: Option<seq<int>>

    constructor (name: string, index: int)
      ensures this.name == name && this.index == index && !isRoot && linkedTo.None?
    {
      this.name := name;
      this.index := index;
      isRoot := false;
      linkedTo := None;
    }
  }

  /** The bones of one partial skeleton, tagged with the partial's index. */
  class BoneList {
    const id: int
    const bones: seq<Bone>

    /** One fresh bone per name, indexed in order, none a root nor linked. */
    constructor (id: int, names: seq<string>)
      ensures this.id == id && Holds(this, names)
      ensures NoDups(bones) && forall k :: 0 <= k < |bones| ==> fresh(bones[k])
      ensures forall k :: 0 <= k < |bones| ==> !bones[k].isRoot && bones[k].linkedTo.None?
    {
      var bs: seq<Bone> := [];
      while |bs| < |names|
        invariant |bs| <= |names| && NoDups(bs)
        invariant forall k :: 0 <= k < |bs| ==> fresh(bs[k]) && bs[k].name == names[k] && bs[k].index == k
        invariant forall k :: 0 <= k < |bs| ==> !bs[k].isRoot && bs[k].linkedTo.None?
      {
        var b := new Bone(names[|bs|], |bs|);
        bs := bs + [b];
      }
      this.id := id;
      this.bones := bs;
    }
  }

  /** A bone list holds one bone per name, in order, each knowing its position. */
  predicate Holds(bl: BoneList, names: seq<string>)
  {
    |bl.bones| == |names| && forall k :: 0 <= k < |names| ==> bl.bones[k].name == names[k] && bl.bones[k].index == k
  }

  /** No bone belongs to two lists, or twice to one. */
  predicate Disjoint(lists: seq<BoneList>)
  {
    (forall j :: 0 <= j < |lists| ==> NoDups(lists[j].bones)) &&
    forall j1, j2, k1, k2 :: 0 <= j1 < j2 < |lists| && 0 <= k1 < |lists[j1].bones| && 0 <= k2 < |lists[j2].bones| ==>
      lists[j1].bones[k1] != lists[j2].bones[k2]
  }

  /** The bone lists match the poses of the index: one per posed entry, in order, tagged and filled. */
  predicate ListsMatch(lists: seq<BoneList>, entries: seq<IndexEntry>)
  {
    var p := PoseIndices(entries);
    |lists| == |p| &&
    forall j :: 0 <= j < |lists| ==>
      0 <= p[j] < |entries| && entries[p[j]].pose.Some? &&
      lists[j].id == p[j] && Holds(lists[j], entries[p[j]].pose.value)
  }

  class SkeletonEditor {
    var visible: bool
    var skeleton: Option<seq<BoneList>>
    /** `BoneSelector.Current`: the selected bone, as (list id, bone index). */
    var current: Option<(int, int)>

    constructor ()
      ensures visible && skeleton.None? && current.None?
    {
      visible := true;
      skeleton := None;
      current := None;
    }

    /** `Show`: the overlay is drawn. */
    method Show()
      modifies this`visible
      ensures visible
    {
      visible := true;
    }

    /** `Hide`: the overlay is not drawn. */
    method Hide()
      modifies this`visible
      ensures !visible
    {
      visible := false;
    }

    /** `SelectBone`: without a model nothing happens; otherwise the bone becomes the selection. */
    method SelectBone(model: Option<seq<IndexEntry>>, bone: Bone, bones: BoneList)
      modifies this`current
      ensures model.None? ==> current == old(current)
      ensures model.Some? ==> current == Some((bones.id, bone.index))
    {
      if model.None? {
        return;
      }
      current := Some((bones.id, bone.index));
    }

    /**
     * `BuildSkeleton`: the skeleton becomes a fresh list, empty without a model; otherwise one bone
     * list per posed entry, each with its first bone as the root, and the bones of the first list
     * linked to the partials whose root bone has their name. `ok` is false when there is no list
     * at all, where `Skeleton[0]` throws.
     */
    method BuildSkeleton(model: Option<seq<IndexEntry>>) returns (ok: bool)
      requires model.Some? ==> PosesHaveBones(model.value)
      modifies this`skeleton
      ensures skeleton.Some?
      ensures model.None? ==> ok && skeleton.value == []
      ensures model.Some? ==> ListsMatch(skeleton.value, model.value) && (ok <==> skeleton.value != [])
      ensures forall j :: 0 <= j < |skeleton.value| ==> fresh(skeleton.value[j])
      ensures forall j, k :: 0 <= j < |skeleton.value| && 0 <= k < |skeleton.value[j].bones| ==>
                fresh(skeleton.value[j].bones[k]) && (skeleton.value[j].bones[k].isRoot <==> k == 0)
      ensures model.Some? ==>
                forall j, k :: 0 <= j < |skeleton.value| && 0 <= k < |skeleton.value[j].bones| ==>
                  var b := skeleton.value[j].bones[k];
                  b.linkedTo == if j == 0 && b.name in LinkTable(model.value) then Some(LinkTable(model.value)[b.name]) else None
    {
      skeleton := Some([]);
      if model.None? {
        return true;
      }
      var lists, linkList := CreateLists(model.value);
      skeleton := Some(lists);
      if lists == [] {
        return false;
      }
      SetLinks(lists, linkList);
      ok := true;
    }

    /** The first loop of `BuildSkeleton`: the bone lists, their roots, and `linkList`. */
    method CreateLists(entries: seq<IndexEntry>) returns (lists: seq<BoneList>, linkList: map<string, seq<int>>)
      requires PosesHaveBones(entries)
      ensures ListsMatch(lists, entries) && Disjoint(lists) && linkList == LinkTable(entries)
      ensures forall j :: 0 <= j < |lists| ==> fresh(lists[j])
      ensures forall j, k :: 0 <= j < |lists| && 0 <= k < |lists[j].bones| ==>
                fresh(lists[j].bones[k]) && (lists[j].bones[k].isRoot <==> k == 0) && lists[j].bones[k].linkedTo.None?
    {
      lists := [];
      linkList := map[];
      var i := 0;
      while i < |entries|
        invariant 0 <= i <= |entries| && PosesHaveBones(entries[..i])
        invariant ListsMatch(lists, entries[..i]) && Disjoint(lists) && linkList == LinkTable(entries[..i])
        invariant forall j :: 0 <= j < |lists| ==> fresh(lists[j])
        invariant forall j, k :: 0 <= j < |lists| && 0 <= k < |lists[j].bones| ==>
                    fresh(lists[j].bones[k]) && (lists[j].bones[k].isRoot <==> k == 0) && lists[j].bones[k].linkedTo.None?
      {
        assert entries[..i + 1][..i] == entries[..i];
        assert entries[..i + 1][i] == entries[i];
        var pose := entries[i].pose;
        if pose.Some? {
          var bones := RootedList(i, pose.value);
          if i > 0 {
            linkList := AddLink(linkList, bones.bones[0].name, i);
          }
          AppendKeepsMatch(lists, entries[..i + 1], bones);
          assert forall j, k1, k2 :: 0 <= j < |lists| && 0 <= k1 < |lists[j].bones| && 0 <= k2 < |bones.bones| ==>
                   lists[j].bones[k1] != bones.bones[k2];
          DisjointSnoc(lists, bones);
          lists := lists + [bones];
        }
        i := i + 1;
      }
      assert entries[..i] == entries;
    }

    /** The second loop of `BuildSkeleton`: the bones of `lists[0]` named in `linkList` are linked. */
    method SetLinks(lists: seq<BoneList>, linkList: map<string, seq<int>>)
      requires lists != [] && Disjoint(lists)
      modifies set k | 0 <= k < |lists[0].bones| :: lists[0].bones[k]
      ensures forall k :: 0 <= k < |lists[0].bones| ==> lists[0].bones[k].isRoot == old(lists[0].bones[k].isRoot)
      ensures forall k :: 0 <= k < |lists[0].bones| ==>
                lists[0].bones[k].linkedTo == if lists[0].bones[k].name in linkList then Some(linkList[lists[0].bones[k].name]) else old(lists[0].bones[k].linkedTo)
    {
      var root := lists[0].bones;
      var k := 0;
      while k < |root|
        invariant 0 <= k <= |root|
        invariant forall m :: 0 <= m < k ==>
                    root[m].linkedTo == if root[m].name in linkList then Some(linkList[root[m].name]) else old(root[m].linkedTo)
        invariant forall m :: k <= m < |root| ==> root[m].linkedTo == old(root[m].linkedTo)
        invariant forall m :: 0 <= m < |root| ==> root[m].isRoot == old(root[m].isRoot)
      {
        var bone := root[k];
        if bone.name in linkList {
          bone.linkedTo := Some(linkList[bone.name]);
        }
        k := k + 1;
      }
    }
  }

  /** `new BoneList(i, pose)` with its first bone flagged as the root. */
  method RootedList(id: int, names: seq<string>) returns (bl: BoneList)
    requires names != []
    ensures fresh(bl) && bl.id == id && Holds(bl, names) && NoDups(bl.bones)
    ensures forall k :: 0 <= k < |bl.bones| ==>
              fresh(bl.bones[k]) && (bl.bones[k].isRoot <==> k == 0) && bl.bones[k].linkedTo.None?
  {
    bl := new BoneList(id, names);
    bl.bones[0].isRoot := true;
  }

  /** Appending a list of new bones keeps the lists disjoint. */
  lemma DisjointSnoc(lists: seq<BoneList>, bl: BoneList)
    requires Disjoint(lists) && NoDups(bl.bones)
    requires forall j, k1, k2 :: 0 <= j < |lists| && 0 <= k1 < |lists[j].bones| && 0 <= k2 < |bl.bones| ==>
               lists[j].bones[k1] != bl.bones[k2]
    ensures Disjoint(lists + [bl])
  {
    var t := lists + [bl];
    forall j | 0 <= j < |t| ensures NoDups(t[j].bones) {
      if j < |lists| {
        assert t[j] == lists[j];
      }
    }
    forall j1, j2, k1, k2 | 0 <= j1 < j2 < |t| && 0 <= k1 < |t[j1].bones| && 0 <= k2 < |t[j2].bones|
      ensures t[j1].bones[k1] != t[j2].bones[k2]
    {
      assert t[j1] == lists[j1];
      if j2 < |lists| {
        assert t[j2] == lists[j2];
      }
    }
  }

  /** Appending the list built for the last posed entry keeps the lists matching the index. */
  lemma AppendKeepsMatch(lists: seq<BoneList>, entries: seq<IndexEntry>, bones: BoneList)
    requires entries != [] && entries[|entries| - 1].pose.Some?
    requires ListsMatch(lists, entries[..|entries| - 1])
    requires bones.id == |entries| - 1 && Holds(bones, entries[|entries| - 1].pose.value)
    ensures ListsMatch(lists + [bones], entries)
  {
    var init := entries[..|entries| - 1];
    assert forall i :: 0 <= i < |init| ==> init[i] == entries[i];
    assert PoseIndices(entries) == PoseIndices(init) + [|entries| - 1];
  }
}
