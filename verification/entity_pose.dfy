/**
 * The armature entity of a character (`EntityPose`): it watches the resource id of every partial
 * skeleton of the render skeleton and rebuilds the bone subtree of a partial whose id changed,
 * keeping a `(partial, bone) -> node` index of the bone nodes below it.
 */
module EntityPoses {
  import opened Common

  /** A partial skeleton of the render skeleton: the id of its resource handle (`None` when the handle is null) and its bone count. */
  datatype PartialSkeleton = PartialSkeleton(resource: Option<nat>, boneCount: nat)

  /** The render skeleton: its partials and whether its owner's model type is `Weapon`. */
  datatype RenderSkeleton = RenderSkeleton(partials: seq<PartialSkeleton>, ownerIsWeapon: bool)

  /** How a fresh bone tree is organised: by bone category (characters) or as a flat list (weapons). */
  datatype Layout = CategoryMap | BoneList

  /** A bone node of the scene tree, identified by the partial and the bone it stands for. */
  datatype BoneNode = BoneNode(partialIndex: int, boneIndex: int, name: string)

  /** The work a rebuild does on the scene tree, in order. */
  datatype Action =
    | Rebuild(index: int, id: nat, layout: Layout)  // `BuildBoneTree` followed by `BuildCategoryMap` / `BuildBoneList`
    | Clean(index: int, id: nat)                    // `Clean(index, id)`
    | Bind(index: int, id: nat)                     // `builder.BindTo(this)`

  /** The bone nodes a finished builder attaches, given partial index, resource id, partial and layout. */
  type Builder = (int, nat, PartialSkeleton, Layout) -> seq<BoneNode>

  /**
   * Everything a rebuild changes: the id recorded per partial (`Partials`), the bone index
   * (`BoneMap`), the bone nodes below the entity in `Recurse` order, and the actions performed.
   */
  datatype PoseState = PoseState(
    partials: map<int, nat>,
    boneMap: map<(int, int), BoneNode>,
    nodes: seq<BoneNode>,
    log: seq<Action>)

  // ---------------------------------------------------------------------------------------------
  // Specification

  /** `GetPartialId`: the resource handle's id, 0 for a null handle. */
  function PartialId(partial: PartialSkeleton): (id: nat)
    ensures id == 0 <== partial.resource.None?
    ensures partial.resource.Some? && partial.resource.value != 0 ==> id != 0
  {
    if partial.resource.Some? then partial.resource.value else 0
  }

  function LayoutFor(s: RenderSkeleton): Layout
  {
    if s.ownerIsWeapon then BoneList else CategoryMap
  }

  /** The id last recorded for `index`; an index seen for the first time counts as 0. */
  function PrevId(st: PoseState, index: int): nat
  {
    if index in st.partials then st.partials[index] else 0
  }

  /** The entries of `m` that belong to partials other than `index`. */
  function Kept(m: map<(int, int), BoneNode>, index: int): map<(int, int), BoneNode>
  {
    map k | k in m && k.0 != index :: m[k]
  }

  /** The nodes of `s` that belong to partials other than `index`, in order. */
  function WithoutPartial(s: seq<BoneNode>, index: int): seq<BoneNode>
  {
    if s == [] then []
    else WithoutPartial(s[..|s| - 1], index) + (if s[|s| - 1].partialIndex == index then [] else [s[|s| - 1]])
  }

  /** Adding the nodes of partial `index` in `s` to `m`, one `Dictionary.Add` each, in order. */
  function AddNodes(m: map<(int, int), BoneNode>, s: seq<BoneNode>, index: int): map<(int, int), BoneNode>
  {
    if s == [] then m
    else
      var prior := AddNodes(m, s[..|s| - 1], index);
      var n := s[|s| - 1];
      if n.partialIndex == index then prior[(index, n.boneIndex) := n] else prior
  }

  /** `BuildBoneMap(index, id)`: drop the partial's keys, then (for a non-zero id) add its nodes. */
  function MapRebuilt(st: PoseState, index: int, id: nat): PoseState
  {
    if id == 0 then st.(boneMap := Kept(st.boneMap, index))
    else st.(boneMap := AddNodes(Kept(st.boneMap, index), st.nodes, index))
  }

  /** `BuildBoneMap(index, id)` throws: `Dictionary.Add` meets a key it already holds. */
  predicate MapThrows(st: PoseState, index: int, id: nat)
  {
    id != 0 && !DistinctBones(st.nodes, index)
  }

  /** `Clean(index, id)`: the partial's bone nodes leave the tree. */
  function Cleaned(st: PoseState, index: int, id: nat): PoseState
  {
    st.(nodes := WithoutPartial(st.nodes, index), log := st.log + [Clean(index, id)])
  }

  /**
   * The tree work of a rebuild of partial `index` that was recorded with `prevId`: build the new
   * tree, clean the old one if there was one, record the id, and bind the new tree unless the id is 0.
   */
  function TreeRebuilt(st: PoseState, build: Builder, s: RenderSkeleton, index: nat, prevId: nat): PoseState
    requires index < |s.partials|
  {
    var partial := s.partials[index];
    var id := PartialId(partial);
    var layout := LayoutFor(s);
    var st2 := st.(log := st.log + [Rebuild(index, id, layout)]);
    var st3 := if prevId != 0 then Cleaned(st2, index, id) else st2;
    var st4 := st3.(partials := st3.partials[index := id]);
    if id != 0 then st4.(nodes := st4.nodes + build(index, id, partial, layout), log := st4.log + [Bind(index, id)]) else st4
  }

  /** `UpdatePartial(skeleton, index)`, where it does not throw. */
  function PartialUpdate(st: PoseState, build: Builder, s: RenderSkeleton, index: nat): PoseState
    requires index < |s.partials|
  {
    var id := PartialId(s.partials[index]);
    var prevId := PrevId(st, index);
    var st1 := if index in st.partials then st else st.(partials := st.partials[index := id]);
    if id == prevId then st1
    else MapRebuilt(TreeRebuilt(st1, build, s, index, prevId), index, id)
  }

  /** `UpdatePartial(skeleton, index)` throws in the rebuild of the bone index. */
  predicate PartialThrows(st: PoseState, build: Builder, s: RenderSkeleton, index: nat)
    requires index < |s.partials|
  {
    var id := PartialId(s.partials[index]);
    var prevId := PrevId(st, index);
    var st1 := if index in st.partials then st else st.(partials := st.partials[index := id]);
    id != prevId && MapThrows(TreeRebuilt(st1, build, s, index, prevId), index, id)
  }

  /** `UpdatePartial` for partials `0 .. n - 1` in order, where none of them throws. */
  function UpdateUpTo(st: PoseState, build: Builder, s: RenderSkeleton, n: nat): PoseState
    requires n <= |s.partials|
  {
    if n == 0 then st else PartialUpdate(UpdateUpTo(st, build, s, n - 1), build, s, n - 1)
  }

  /** Some partial among `0 .. n - 1` throws, which ends the update there. */
  predicate UpdateThrows(st: PoseState, build: Builder, s: RenderSkeleton, n: nat)
    requires n <= |s.partials|
  {
    n > 0 && (UpdateThrows(st, build, s, n - 1) || PartialThrows(UpdateUpTo(st, build, s, n - 1), build, s, n - 1))
  }

  /** The `Clean` calls of `Refresh` for partials `0 .. n - 1`. */
  function CleanUpTo(st: PoseState, s: RenderSkeleton, n: nat): PoseState
    requires n <= |s.partials|
  {
    if n == 0 then st else Cleaned(CleanUpTo(st, s, n - 1), n - 1, PartialId(s.partials[n - 1]))
  }

  /** The actions a rebuild performs when the id changes from `prevId` to `id`. */
  function RebuildWork(index: int, prevId: nat, id: nat, layout: Layout): seq<Action>
  {
    if id == prevId then []
    else
      [Rebuild(index, id, layout)]
      + (if prevId != 0 then [Clean(index, id)] else [])
      + (if id != 0 then [Bind(index, id)] else [])
  }

  /** No two nodes of partial `index` share a bone index. */
  predicate DistinctBones(s: seq<BoneNode>, index: int)
  {
    forall i, j :: 0 <= i < j < |s| && s[i].partialIndex == index && s[j].partialIndex == index ==>
      s[i].boneIndex != s[j].boneIndex
  }

  /** `a` and `b` agree on every key whose partial lies outside `lo .. hi - 1`. */
  ghost predicate SameOutside(a: map<(int, int), BoneNode>, b: map<(int, int), BoneNode>, lo: int, hi: int)
  {
    forall k: (int, int) :: !(lo <= k.0 < hi) ==> (k in a <==> k in b) && (k in b ==> a[k] == b[k])
  }

  /** `a` and `b` record the same ids for every partial outside `lo .. hi - 1`. */
  ghost predicate SameIdsOutside(a: map<int, nat>, b: map<int, nat>, lo: int, hi: int)
  {
    forall j :: !(lo <= j < hi) ==> (j in a <==> j in b) && (j in b ==> a[j] == b[j])
  }

  lemma {:induction false} WithoutPartialMembers(s: seq<BoneNode>, index: int, x: BoneNode)
    ensures x in WithoutPartial(s, index) <==> x in s && x.partialIndex != index
  {
    if s != [] {
      WithoutPartialMembers(s[..|s| - 1], index, x);
      assert s == s[..|s| - 1] + [s[|s| - 1]];
    }
  }

  /** The bone indices of the nodes of partial `index` in `s`. */
  function BonesOf(s: seq<BoneNode>, index: int): set<int>
  {
    if s == [] then {}
    else BonesOf(s[..|s| - 1], index) + (if s[|s| - 1].partialIndex == index then {s[|s| - 1].boneIndex} else {})
  }

  lemma {:induction false} BonesOfMembers(s: seq<BoneNode>, index: int, b: int)
    ensures b in BonesOf(s, index) <==> exists j :: 0 <= j < |s| && s[j].partialIndex == index && s[j].boneIndex == b
  {
    if s != [] {
      var init := s[..|s| - 1];
      BonesOfMembers(init, index, b);
      if exists j :: 0 <= j < |init| && init[j].partialIndex == index && init[j].boneIndex == b {
        var j :| 0 <= j < |init| && init[j].partialIndex == index && init[j].boneIndex == b;
        assert s[j] == init[j];
      }
      if exists j :: 0 <= j < |s| && s[j].partialIndex == index && s[j].boneIndex == b {
        var j :| 0 <= j < |s| && s[j].partialIndex == index && s[j].boneIndex == b;
        if j < |init| {
          assert init[j] == s[j];
        }
      }
    }
  }

  // ---------------------------------------------------------------------------------------------
  // The bone index

  /** Adding nodes never touches keys of other partials, and leaves one key per bone of the partial. */
  lemma {:induction false} AddNodesContents(m: map<(int, int), BoneNode>, s: seq<BoneNode>, index: int)
    ensures var r := AddNodes(m, s, index);
      && SameOutside(r, m, index, index + 1)
      && (forall b :: (index, b) in r <==> (index, b) in m || b in BonesOf(s, index))
      && (forall b :: (index, b) in r && (index, b) !in m ==>
            r[(index, b)] in s && r[(index, b)].partialIndex == index && r[(index, b)].boneIndex == b)
  {
    if s != [] {
      var init := s[..|s| - 1];
      AddNodesContents(m, init, index);
      var prior := AddNodes(m, init, index);
      forall b | (index, b) in prior && (index, b) !in m ensures prior[(index, b)] in s {
        assert prior[(index, b)] in init;
      }
    }
  }

  /** While no key repeats, the key of the next node of the partial is not in the index yet. */
  lemma AddNodesFresh(m: map<(int, int), BoneNode>, s: seq<BoneNode>, index: int, i: nat)
    requires i < |s| && s[i].partialIndex == index && forall k: (int, int) :: k in m ==> k.0 != index
    requires DistinctBones(s[..i], index)
    ensures (index, s[i].boneIndex) in AddNodes(m, s[..i], index) <==> !DistinctBones(s[..i + 1], index)
  {
    var init := s[..i];
    AddNodesContents(m, init, index);
    BonesOfMembers(init, index, s[i].boneIndex);
    var t := s[..i + 1];
    assert t[i] == s[i];
    if !DistinctBones(t, index) {
      var j, k :| 0 <= j < k < |t| && t[j].partialIndex == index && t[k].partialIndex == index
        && t[j].boneIndex == t[k].boneIndex;
      if k == i {
        assert init[j] == t[j];
      } else {
        assert init[j] == t[j] && init[k] == t[k];
      }
    }
  }

  /** A list with a repeated bone of the partial in a prefix has one in the whole list. */
  lemma DistinctPrefix(s: seq<BoneNode>, index: int, i: nat)
    requires i <= |s| && !DistinctBones(s[..i], index)
    ensures !DistinctBones(s, index)
  {
    var t := s[..i];
    var j, k :| 0 <= j < k < |t| && t[j].partialIndex == index && t[k].partialIndex == index
      && t[j].boneIndex == t[k].boneIndex;
    assert s[j] == t[j] && s[k] == t[k];
  }

  /** `BuildBoneMap` leaves every other partial's entries alone, and leaves exactly this partial's nodes for it. */
  lemma MapRebuiltContents(st: PoseState, index: int, id: nat)
    ensures var r := MapRebuilt(st, index, id);
      && r.partials == st.partials && r.nodes == st.nodes && r.log == st.log
      && SameOutside(r.boneMap, st.boneMap, index, index + 1)
      && (forall b :: (index, b) in r.boneMap <==> id != 0 && exists j :: 0 <= j < |st.nodes| && st.nodes[j].partialIndex == index && st.nodes[j].boneIndex == b)
      && (forall b :: (index, b) in r.boneMap ==> r.boneMap[(index, b)] in st.nodes && r.boneMap[(index, b)].partialIndex == index && r.boneMap[(index, b)].boneIndex == b)
  {
    AddNodesContents(Kept(st.boneMap, index), st.nodes, index);
    forall b {
      BonesOfMembers(st.nodes, index, b);
    }
  }

  // ---------------------------------------------------------------------------------------------
  // Rebuilds

  /** An update whose id equals the recorded one performs no rebuild, clean, bind or map change. */
  lemma UnchangedIdNoWork(st: PoseState, build: Builder, s: RenderSkeleton, index: nat)
    requires index < |s.partials| && index in st.partials && st.partials[index] == PartialId(s.partials[index])
    ensures !PartialThrows(st, build, s, index) && PartialUpdate(st, build, s, index) == st
  {
  }

  /** A partial first seen with id 0 is recorded and causes no other work. */
  lemma FirstSeenZeroNoWork(st: PoseState, build: Builder, s: RenderSkeleton, index: nat)
    requires index < |s.partials| && index !in st.partials && PartialId(s.partials[index]) == 0
    ensures !PartialThrows(st, build, s, index)
    ensures PartialUpdate(st, build, s, index) == st.(partials := st.partials[index := 0])
  {
  }

  /** The tree work of a rebuild, as the actions it performs and the id it records. */
  lemma TreeRebuiltContents(st: PoseState, build: Builder, s: RenderSkeleton, index: nat, prevId: nat)
    requires index < |s.partials| && prevId != PartialId(s.partials[index])
    ensures var r := TreeRebuilt(st, build, s, index, prevId);
      && r.log == st.log + RebuildWork(index, prevId, PartialId(s.partials[index]), LayoutFor(s))
      && r.partials == st.partials[index := PartialId(s.partials[index])]
  {
  }

  /**
   * The work of one update: a rebuild exactly when the id changed, in the layout the owner's model
   * type selects, a clean only when the previous id was non-zero and a bind only when the new id is.
   */
  lemma PartialUpdateWork(st: PoseState, build: Builder, s: RenderSkeleton, index: nat)
    requires index < |s.partials|
    ensures PartialUpdate(st, build, s, index).log
      == st.log + RebuildWork(index, PrevId(st, index), PartialId(s.partials[index]), LayoutFor(s))
  {
    var id := PartialId(s.partials[index]);
    var prevId := PrevId(st, index);
    if id != prevId {
      var st1 := if index in st.partials then st else st.(partials := st.partials[index := id]);
      TreeRebuiltContents(st1, build, s, index, prevId);
    }
  }

  /** Every update records the partial's current id, and only that. */
  lemma PartialUpdateIds(st: PoseState, build: Builder, s: RenderSkeleton, index: nat)
    requires index < |s.partials|
    ensures PartialUpdate(st, build, s, index).partials == st.partials[index := PartialId(s.partials[index])]
  {
    var id := PartialId(s.partials[index]);
    var prevId := PrevId(st, index);
    if id != prevId {
      var st1 := if index in st.partials then st else st.(partials := st.partials[index := id]);
      TreeRebuiltContents(st1, build, s, index, prevId);
    } else if index in st.partials {
      assert st.partials[index := id] == st.partials;
    }
  }

  /**
   * A rebuild leaves the bone index entries of every other partial untouched; after it the index
   * holds no key of the partial when the new id is 0, and otherwise exactly one entry per bone
   * node of the partial, keyed by its bone index.
   */
  lemma PartialUpdateBoneMap(st: PoseState, build: Builder, s: RenderSkeleton, index: nat)
    requires index < |s.partials|
    ensures var r := PartialUpdate(st, build, s, index);
      var id := PartialId(s.partials[index]);
      && SameOutside(r.boneMap, st.boneMap, index, index + 1)
      && (id != PrevId(st, index) ==>
            (forall b :: (index, b) in r.boneMap <==> id != 0 && exists j :: 0 <= j < |r.nodes| && r.nodes[j].partialIndex == index && r.nodes[j].boneIndex == b)
            && (forall b :: (index, b) in r.boneMap ==> r.boneMap[(index, b)] in r.nodes && r.boneMap[(index, b)].partialIndex == index && r.boneMap[(index, b)].boneIndex == b))
  {
    var id := PartialId(s.partials[index]);
    var prevId := PrevId(st, index);
    if id != prevId {
      var st1 := if index in st.partials then st else st.(partials := st.partials[index := id]);
      MapRebuiltContents(TreeRebuilt(st1, build, s, index, prevId), index, id);
    }
  }

  /** An update throws exactly on a rebuild to a non-zero id whose bound tree repeats a bone of the partial. */
  lemma PartialThrowsWhen(st: PoseState, build: Builder, s: RenderSkeleton, index: nat)
    requires index < |s.partials|
    ensures PartialThrows(st, build, s, index) ==>
      PartialId(s.partials[index]) != PrevId(st, index) && PartialId(s.partials[index]) != 0
    ensures PartialThrows(st, build, s, index) <== PartialId(s.partials[index]) != PrevId(st, index)
      && PartialId(s.partials[index]) != 0 && !DistinctBones(PartialUpdate(st, build, s, index).nodes, index)
  {
  }

  /** Once an update of the pose has thrown, it has thrown for every longer prefix of partials. */
  lemma {:induction false} UpdateThrowsStays(st: PoseState, build: Builder, s: RenderSkeleton, i: nat, n: nat)
    requires i <= n <= |s.partials| && UpdateThrows(st, build, s, i)
    ensures UpdateThrows(st, build, s, n)
    decreases n
  {
    if i < n {
      UpdateThrowsStays(st, build, s, i, n - 1);
    }
  }

  /** Updating partials `0 .. n - 1` leaves the bone index entries of every other partial untouched. */
  lemma {:induction false} UpdateUpToBoneMap(st: PoseState, build: Builder, s: RenderSkeleton, n: nat)
    requires n <= |s.partials|
    ensures SameOutside(UpdateUpTo(st, build, s, n).boneMap, st.boneMap, 0, n)
  {
    if n > 0 {
      var prior := UpdateUpTo(st, build, s, n - 1);
      assert SameOutside(prior.boneMap, st.boneMap, 0, n - 1) by {
        UpdateUpToBoneMap(st, build, s, n - 1);
      }
      assert SameOutside(UpdateUpTo(st, build, s, n).boneMap, prior.boneMap, n - 1, n) by {
        PartialUpdateBoneMap(prior, build, s, n - 1);
      }
    }
  }

  /** The records `m` after the current ids of partials `0 .. n - 1` are stored in order. */
  function IdsAfter(m: map<int, nat>, s: RenderSkeleton, n: nat): map<int, nat>
    requires n <= |s.partials|
  {
    if n == 0 then m else IdsAfter(m, s, n - 1)[n - 1 := PartialId(s.partials[n - 1])]
  }

  /** After storing, partials `0 .. n - 1` hold their current ids and every other record is as before. */
  lemma {:induction false} IdsAfterContents(m: map<int, nat>, s: RenderSkeleton, n: nat)
    requires n <= |s.partials|
    ensures SameIdsOutside(IdsAfter(m, s, n), m, 0, n)
    ensures forall j :: 0 <= j < n ==> j in IdsAfter(m, s, n) && IdsAfter(m, s, n)[j] == PartialId(s.partials[j])
  {
    if n > 0 {
      IdsAfterContents(m, s, n - 1);
    }
  }

  /** Updating partials `0 .. n - 1` records the current id of each of them and changes no other record. */
  lemma {:induction false} UpdateUpToPartials(st: PoseState, build: Builder, s: RenderSkeleton, n: nat)
    requires n <= |s.partials|
    ensures UpdateUpTo(st, build, s, n).partials == IdsAfter(st.partials, s, n)
  {
    if n > 0 {
      var prior := UpdateUpTo(st, build, s, n - 1);
      assert prior.partials == IdsAfter(st.partials, s, n - 1) by {
        UpdateUpToPartials(st, build, s, n - 1);
      }
      PartialUpdateIds(prior, build, s, n - 1);
    }
  }

  // ---------------------------------------------------------------------------------------------
  // Refresh

  /** `Refresh` cleans the subtree of every partial in order and keeps the records and the bone index as they are. */
  lemma {:induction false} CleanUpToLog(st: PoseState, s: RenderSkeleton, n: nat)
    requires n <= |s.partials|
    ensures var r := CleanUpTo(st, s, n);
      && r.partials == st.partials && r.boneMap == st.boneMap
      && |r.log| == |st.log| + n && r.log[..|st.log|] == st.log
      && (forall j :: 0 <= j < n ==> r.log[|st.log| + j] == Clean(j, PartialId(s.partials[j])))
  {
    if n > 0 {
      CleanUpToLog(st, s, n - 1);
      var prior := CleanUpTo(st, s, n - 1);
      var r := CleanUpTo(st, s, n);
      assert r.log == prior.log + [Clean(n - 1, PartialId(s.partials[n - 1]))];
      forall j | 0 <= j < n ensures r.log[|st.log| + j] == Clean(j, PartialId(s.partials[j])) {
        if j < n - 1 {
          assert r.log[|st.log| + j] == prior.log[|st.log| + j];
        }
      }
      assert r.log[..|st.log|] == prior.log[..|st.log|];
    }
  }

  /** After `Refresh` no bone node of a cleaned partial is left, and every other node is. */
  lemma {:induction false} CleanUpToNodes(st: PoseState, s: RenderSkeleton, n: nat, x: BoneNode)
    requires n <= |s.partials|
    ensures x in CleanUpTo(st, s, n).nodes <==> x in st.nodes && !(0 <= x.partialIndex < n)
  {
    if n > 0 {
      var prior := CleanUpTo(st, s, n - 1);
      assert x in prior.nodes <==> x in st.nodes && !(0 <= x.partialIndex < n - 1) by {
        CleanUpToNodes(st, s, n - 1, x);
      }
      assert CleanUpTo(st, s, n).nodes == WithoutPartial(prior.nodes, n - 1);
      WithoutPartialMembers(prior.nodes, n - 1, x);
    }
  }

  /** After `Refresh` every partial counts as new, so one with a non-zero id is rebuilt and bound on the next update, without a clean. */
  lemma RefreshForcesRebuild(st: PoseState, build: Builder, s: RenderSkeleton, index: nat)
    requires index < |s.partials| && st.partials == map[] && PartialId(s.partials[index]) != 0
    ensures PartialUpdate(st, build, s, index).log
        == st.log + [Rebuild(index, PartialId(s.partials[index]), LayoutFor(s)), Bind(index, PartialId(s.partials[index]))]
  {
    PartialUpdateWork(st, build, s, index);
  }

  // ---------------------------------------------------------------------------------------------
  // The entity

  class EntityPose {
    /** The injected `IPoseBuilder`. */
    const build: Builder
    var partials: map<int, nat>
    var boneMap: map<(int, int), BoneNode>
    var nodes: seq<BoneNode>
    var log: seq<Action>

    function State(): PoseState
      reads this
    {
      PoseState(partials, boneMap, nodes, log)
    }

    constructor (build: Builder)
      ensures this.build == build
      ensures State() == PoseState(map[], map[], [], [])
    {
      this.build := build;
      partials := map[];
      boneMap := map[];
      nodes := [];
      log := [];
    }

    /** `Update`: nothing for an invalid entity, otherwise `UpdatePose`. `ok` is false where a rebuild threw. */
    method Update(isValid: bool, skeleton: Option<RenderSkeleton>) returns (ok: bool)
      modifies this
      ensures !isValid || skeleton.None? ==> ok && State() == old(State())
      ensures isValid && skeleton.Some? ==>
        var n := |skeleton.value.partials|;
        ok == !UpdateThrows(old(State()), build, skeleton.value, n)
        && (ok ==> State() == UpdateUpTo(old(State()), build, skeleton.value, n))
    {
      if !isValid {
        return true;
      }
      ok := UpdatePose(skeleton);
    }

    /** `Refresh`: forget every recorded id and clean every partial's subtree. */
    method Refresh(skeleton: Option<RenderSkeleton>)
      modifies this
      ensures skeleton.None? ==> State() == old(State())
      ensures skeleton.Some? ==>
        State() == CleanUpTo(old(State()).(partials := map[]), skeleton.value, |skeleton.value.partials|)
    {
      if skeleton.None? {
        return;
      }
      var s := skeleton.value;
      partials := map[];
      ghost var start := State();
      var index := 0;
      while index < |s.partials|
        invariant 0 <= index <= |s.partials|
        invariant State() == CleanUpTo(start, s, index)
      {
        var id := PartialId(s.partials[index]);
        Clean(index, id);
        index := index + 1;
      }
    }

    method UpdatePose(skeleton: Option<RenderSkeleton>) returns (ok: bool)
      modifies this
      ensures skeleton.None? ==> ok && State() == old(State())
      ensures skeleton.Some? ==>
        var n := |skeleton.value.partials|;
        ok == !UpdateThrows(old(State()), build, skeleton.value, n)
        && (ok ==> State() == UpdateUpTo(old(State()), build, skeleton.value, n))
    {
      if skeleton.None? {
        return true;
      }
      var s := skeleton.value;
      var index := 0;
      while index < |s.partials|
        invariant 0 <= index <= |s.partials|
        invariant !UpdateThrows(old(State()), build, s, index)
        invariant State() == UpdateUpTo(old(State()), build, s, index)
      {
        ok := UpdatePartial(s, index);
        if !ok {
          UpdateThrowsStays(old(State()), build, s, index + 1, |s.partials|);
          return;
        }
        index := index + 1;
      }
      ok := true;
    }

    method UpdatePartial(skeleton: RenderSkeleton, index: nat) returns (ok: bool)
      requires index < |skeleton.partials|
      modifies this
      ensures ok == !PartialThrows(old(State()), build, skeleton, index)
      ensures ok ==> State() == PartialUpdate(old(State()), build, skeleton, index)
    {
      var partial := skeleton.partials[index];
      var id := PartialId(partial);
      var prevId := 0;
      if index in partials {
        prevId := partials[index];
      } else {
        partials := partials[index := id];
      }
      if id == prevId {
        return true;
      }
      var layout := if skeleton.ownerIsWeapon then BoneList else CategoryMap;
      var tree := build(index, id, partial, layout);
      log := log + [Rebuild(index, id, layout)];
      if prevId != 0 {
        Clean(index, id);
      }
      partials := partials[index := id];
      if id != 0 {
        BindTo(tree, index, id);
      }
      ok := BuildBoneMap(index, id);
    }

    /** Detaches the bone nodes of partial `index`. */
    method Clean(index: int, id: nat)
      modifies this
      ensures State() == Cleaned(old(State()), index, id)
    {
      nodes := WithoutPartial(nodes, index);
      log := log + [Action.Clean(index, id)];
    }

    /** Attaches a freshly built bone tree below the entity. */
    method BindTo(tree: seq<BoneNode>, index: int, id: nat)
      modifies this
      ensures State() == old(State()).(nodes := old(nodes) + tree, log := old(log) + [Bind(index, id)])
    {
      nodes := nodes + tree;
      log := log + [Bind(index, id)];
    }

    /** `BuildBoneMap`; `ok` is false where `Dictionary.Add` meets a key twice and throws. */
    method BuildBoneMap(index: int, id: nat) returns (ok: bool)
      modifies this
      ensures ok == !MapThrows(old(State()), index, id)
      ensures ok ==> State() == MapRebuilt(old(State()), index, id)
    {
      var doomed := set k | k in boneMap && k.0 == index;
      while doomed != {}
        invariant doomed <= boneMap.Keys
        invariant forall k :: k in doomed ==> k.0 == index
        invariant partials == old(partials) && nodes == old(nodes) && log == old(log)
        invariant boneMap == map k | k in old(boneMap) && (k.0 != index || k in doomed) :: old(boneMap)[k]
        decreases doomed
      {
        var k :| k in doomed;
        boneMap := boneMap - {k};
        doomed := doomed - {k};
      }
      assert boneMap == Kept(old(boneMap), index);
      if id == 0 {
        return true;
      }
      var i := 0;
      while i < |nodes|
        invariant 0 <= i <= |nodes|
        invariant partials == old(partials) && nodes == old(nodes) && log == old(log)
        invariant DistinctBones(nodes[..i], index)
        invariant boneMap == AddNodes(Kept(old(boneMap), index), nodes[..i], index)
      {
        assert nodes[..i + 1][..i] == nodes[..i];
        var n := nodes[i];
        if n.partialIndex == index {
          AddNodesFresh(Kept(old(boneMap), index), nodes, index, i);
          if (index, n.boneIndex) in boneMap {
            DistinctPrefix(nodes, index, i + 1);
            return false;
          }
          boneMap := boneMap[(index, n.boneIndex) := n];
        } else {
          assert DistinctBones(nodes[..i + 1], index);
        }
        i := i + 1;
      }
      assert nodes[..i] == nodes;
      ok := true;
    }

    /** `GetBoneFromMap`: the node indexed under `(partialIx, boneIx)`, or null. */
    function GetBoneFromMap(partialIx: int, boneIx: int): (r: Option<BoneNode>)
      reads this
      ensures r.Some? <==> (partialIx, boneIx) in boneMap
      ensures r.Some? ==> r.value == boneMap[(partialIx, boneIx)]
    {
      if (partialIx, boneIx) in boneMap then Some(boneMap[(partialIx, boneIx)]) else None
    }

    /** `GetPartial`: the id recorded for partial `index`, or null. */
    function GetPartial(index: int): (r: Option<nat>)
      reads this
      ensures r.Some? <==> index in partials
      ensures r.Some? ==> r.value == partials[index]
    {
      if index in partials then Some(partials[index]) else None
    }
  }
}
