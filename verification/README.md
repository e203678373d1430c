# Ktisis bookkeeping core, modelled in Dafny

Ktisis is a posing and scene-editing plugin for a game client. Behind its user interface it keeps
a number of small bookkeeping components: a pose snapshot that can be restored onto a skeleton of
several partial skeletons, a tracker that rebuilds the bone tree of a partial when its resource
changes, the scene graph with its cascading removal, two selection lists kept in step with the
objects' `Selected` flags, the character-customisation editor with its batches and redraw rules,
the face-type discovery arithmetic, the value arithmetic of the customisation widgets, the
chat-command registry, the group-pose watcher, the per-frame state of the transform gizmo, and
the legacy skeleton overlay's link table.

This project models each of them in Dafny, one module per source file:

| module | file | source |
|---|---|---|
| `Common` | common.dfy | list helpers shared by the others (`IndexOf`, `RemoveFirst`, `Filter`, `Join`, ...) |
| `Posing` | pose_container.dfy | `Ktisis/Editor/Posing/Data/PoseContainer.cs` |
| `EntityPoses` | entity_pose.dfy | `Ktisis/Scene/Entities/Skeleton/EntityPose.cs` |
| `Scenes` | scene_graph.dfy | `Ktisis/Scene/SceneGraph.cs` |
| `SceneSelection` | scene_select.dfy | `Ktisis/Scene/Editing/SelectState.cs` |
| `EditingSelection` | editing_select.dfy | `Ktisis/Editing/SelectState.cs` |
| `Customization` | customize_editor.dfy | `Ktisis/Editor/Characters/Handlers/CustomizeEditor.cs` |
| `CustomizeDiscovery` | customize_discovery.dfy | `Ktisis/Services/CustomizeDiscoveryService.cs` |
| `CustomizeUi` | customize_ui.dfy | `Ktisis/Interface/Components/Actors/CustomizeEditorUi.cs` |
| `Commands` | command_service.dfy | `Ktisis/Services/CommandService.cs` |
| `GPose` | gpose_service.dfy | `Ktisis/Services/GPoseService.cs` |
| `Gizmos` | gizmo.dfy | `Ktisis/Interface/Overlay/Gizmo.cs` |
| `Skeletons` | skeleton_editor.dfy | `Ktisis/Overlay/SkeletonEditor.cs` |

Where the source updates an object in place, the model is a class with the same fields, and its
methods state the new state in terms of a specification function of the old state. Those
functions carry the lemmas. The game and its native libraries stay outside the model:

- What they answer is passed in as a parameter.
- What is asked of them is appended to a log: Havok writes and propagations, draw-data updates
  and redraws, command-manager calls, native gizmo calls, and scene notifications.

All files are verified together:

    dafny verify --resource-limit 2000000 --verification-time-limit 0 --warn-contradictory-assumptions *.dfy

## Model

| member | source | states |
|---|---|---|
| Posing.Mul | Ktisis/Editor/Posing/Data/PoseContainer.cs:171 | Rotation product; multiplying by the identity on either side gives the other factor. |
| Posing.Div | Ktisis/Editor/Posing/Data/PoseContainer.cs:194 | Rotation quotient; dividing by the identity gives the dividend. |
| Posing.SetModelTransform | Ktisis/Editor/Posing/Data/PoseContainer.cs:175 | The host write: the bone gets the transform, no other bone changes, and the call is logged. |
| Posing.Propagate | Ktisis/Editor/Posing/Data/PoseContainer.cs:176 | The host propagation: the written bone keeps its transform, only bones of that partial move, and the call is logged. |
| Posing.PoseContainer.constructor | Ktisis/Editor/Posing/Data/PoseContainer.cs:38 | The container starts as an empty dictionary. |
| Posing.PoseContainer.Store | Ktisis/Editor/Posing/Data/PoseContainer.cs:39-63 | A null skeleton leaves the dictionary as it was. Otherwise the dictionary is cleared and refilled by the nested partial/bone loops, so it equals `Snapshot` of the current skeleton alone. |
| Posing.SnapshotUpToKeys | Ktisis/Editor/Posing/Data/PoseContainer.cs:45-61 | After the loop over partials `0 .. n-1`, a name is a key iff some captured bone carries it. Its transform is that of the last such bone in visiting order. |
| Posing.SnapshotContents | Ktisis/Editor/Posing/Data/PoseContainer.cs:48-60 | A name is stored iff some bone with that name is not its partial's connector bone, is not unnamed, and is in a partial with a pose. When the name repeats, the entry comes from the highest-index partial's last such bone. |
| Posing.BoneEntriesKeys | Ktisis/Editor/Posing/Data/PoseContainer.cs:51-59 | The inner bone loop adds exactly the eligible names, each with the last eligible bone's transform. |
| Posing.PoseContainer.Apply | Ktisis/Editor/Posing/Data/PoseContainer.cs:65-72 | A null skeleton is a no-op. `ok` is false iff partial 0 has a skeleton without bones (`RangeThrows`). Then `Enumerable.Range` throws before any host call, the loop stops, and the host is unchanged. Otherwise the host ends as `ApplyEffect` of all partials, taken in ascending order. |
| Posing.ApplyEffectOrder | Ktisis/Editor/Posing/Data/PoseContainer.cs:69-71 | The calls of `Apply` are on partials in non-decreasing order, each below the partial count. |
| Posing.PoseContainer.ApplyToBones | Ktisis/Editor/Posing/Data/PoseContainer.cs:74-94 | `boneMap` is built by grouping the requests by partial (`Group`). `ok` is false iff partial 0 is requested and `RangeThrows`. Then the first partial visited throws and the host is unchanged. Otherwise the host ends as `GroupsEffect`, which applies each requested partial with a pose in ascending order. |
| Posing.GroupContents | Ktisis/Editor/Posing/Data/PoseContainer.cs:79-88 | `boneMap` has a key for exactly the partials some request names. Each key maps to that partial's bone indices in request order. |
| Posing.GroupsEffectOrder | Ktisis/Editor/Posing/Data/PoseContainer.cs:90-93 | The second loop visits partials in ascending order. A requested partial at or above the count is never visited. |
| Posing.GroupsEffectRequested | Ktisis/Editor/Posing/Data/PoseContainer.cs:90-93 | The second loop writes only partials that some request names. |
| Posing.PoseContainer.ApplyToPartial | Ktisis/Editor/Posing/Data/PoseContainer.cs:96-112 | `ok` is false iff the partial `RangeThrows`, as `Enumerable.Range(1, -1)` does for partial 0 without bones. Then the host is unchanged. Otherwise the host ends as `WholePartialEffect`: every bone of the partial, through `ApplyToPartialBones`. |
| Posing.PoseContainer.ApplyToPartialBones | Ktisis/Editor/Posing/Data/PoseContainer.cs:114-144 | `ok` is false iff the partial `RangeThrows` (`Enumerable.Range(1, Length - 1)` with no bones). Then the host is unchanged. Otherwise the host ends as `PartialEffect`. A partial without a pose or skeleton is a no-op. A partial after 0 is re-parented first, then the requested bones are applied with its offset. |
| Posing.PoseContainer.ApplyToRange | Ktisis/Editor/Posing/Data/PoseContainer.cs:141-143 | The bone loop applies the bones of `1 .. len-1` that are also requested, in ascending order, each with the same offset (`BonesEffect` of `Intersect`). |
| Posing.IntersectContents | Ktisis/Editor/Posing/Data/PoseContainer.cs:141 | `Intersect` lists the requested values in range exactly once each, in ascending order, and nothing else. |
| Posing.PartialEffectSteps | Ktisis/Editor/Posing/Data/PoseContainer.cs:122-143 | For a partial with a pose, the offset is taken after `ParentSkeleton`, and the bone loop runs on the host that `ParentSkeleton` leaves. |
| Posing.PartialEffectWrites | Ktisis/Editor/Posing/Data/PoseContainer.cs:122-143 | Every call is on partial `p`. For a partial after 0 with both poses, the two connector writes come first. After them come the requested bones of `1 .. len-1` that have a snapshot entry, in ascending order. |
| Posing.PartialEffectOn | Ktisis/Editor/Posing/Data/PoseContainer.cs:114-144 | `ApplyToPartialBones` touches partial `p` only. |
| Posing.PartialBonesOrder | Ktisis/Editor/Posing/Data/PoseContainer.cs:141-143 | The bones written after the connector lie in `1 .. len-1`, were requested, and come once each in ascending order. Bone 0 is never written by the loop. |
| Posing.PoseContainer.ApplyToBone | Ktisis/Editor/Posing/Data/PoseContainer.cs:146-177 | The host ends as `BoneEffect`: no change for an unnamed bone or a name without a snapshot entry; otherwise one write of `BoneTarget`, then one propagation. |
| Posing.BoneEffectWrites | Ktisis/Editor/Posing/Data/PoseContainer.cs:154-176 | The bone ends with position, rotation and scale replaced exactly as the channel flags say: position for `Position` (or `PositionRoot` on bone 1 of partial 0), rotation as `offset * stored` for `Rotation`, scale for `Scale`. Every other component keeps its current value. |
| Posing.BoneRoundTrip | Ktisis/Editor/Posing/Data/PoseContainer.cs:154-173 | With every channel and the identity offset, restoring an entry puts back exactly the stored transform. |
| Posing.BoneEffectLog | Ktisis/Editor/Posing/Data/PoseContainer.cs:146-177 | `ApplyToBone`'s calls are on its partial and write only its bone, and only when it applies. |
| Posing.BonesEffectWrites | Ktisis/Editor/Posing/Data/PoseContainer.cs:141-143 | Over a list of bones, every call is on partial `p`. The bones written are the listed bones that have a snapshot entry, in list order. |
| Posing.PoseContainer.ParentSkeleton | Ktisis/Editor/Posing/Data/PoseContainer.cs:179-205 | The host and the returned delta are those of `ParentEffect`. It tests only that partial `p` and partial 0 have a pose, so a root pose without a skeleton still gets the connector writes. |
| Posing.RangeThrowsOnlyRoot | Ktisis/Editor/Posing/Data/PoseContainer.cs:105-109 | On a well-formed host only partial 0 can have a skeleton without bones, so only partial 0 can make `Enumerable.Range` throw. |
| Posing.ParentEffectWrites | Ktisis/Editor/Posing/Data/PoseContainer.cs:179-205 | Unless both partial `p` and partial 0 have a pose (with or without a skeleton), no write is made and the identity is returned. Otherwise there are exactly two write/propagate pairs, both on the connector bone of `p`. |
| Posing.ParentEffectTouches | Ktisis/Editor/Posing/Data/PoseContainer.cs:185-204 | `ParentSkeleton` writes the connector bone twice and no other bone. |
| Posing.ParentEffectModel | Ktisis/Editor/Posing/Data/PoseContainer.cs:185-204 | Afterwards the connector holds the second write, and partial 0 is unchanged. |
| EntityPoses.PartialId | Ktisis/Scene/Entities/Skeleton/EntityPose.cs:112-115 | The id is the resource handle's id, or 0 for a null handle. |
| EntityPoses.EntityPose.constructor | Ktisis/Scene/Entities/Skeleton/EntityPose.cs:21-34 | No partials are recorded, the bone index is empty, and nothing has happened yet. |
| EntityPoses.EntityPose.Update | Ktisis/Scene/Entities/Skeleton/EntityPose.cs:38-41 | An invalid entity is left alone. Otherwise the state becomes `UpdateUpTo` over every partial, or `ok` is false where a rebuild throws. |
| EntityPoses.EntityPose.UpdatePose | Ktisis/Scene/Entities/Skeleton/EntityPose.cs:55-61 | Partials `0 .. count-1` are updated in order (`UpdateUpTo`). `ok` is false exactly when `UpdateThrows`. |
| EntityPoses.EntityPose.UpdatePartial | Ktisis/Scene/Entities/Skeleton/EntityPose.cs:63-100 | The state becomes `PartialUpdate` of the old state, unless `PartialThrows`; then `ok` is false. |
| EntityPoses.EntityPose.Refresh | Ktisis/Scene/Entities/Skeleton/EntityPose.cs:43-53 | A null skeleton is a no-op. Otherwise every recorded id is forgotten and every partial's subtree is cleaned (`CleanUpTo`). |
| EntityPoses.EntityPose.BuildBoneMap | Ktisis/Scene/Entities/Skeleton/EntityPose.cs:102-110 | The bone index becomes `MapRebuilt`. `ok` is false exactly when `Dictionary.Add` meets a key twice (`MapThrows`). |
| EntityPoses.EntityPose.Clean | Ktisis/Scene/Entities/Skeleton/EntityPose.cs:89-90 | The partial's bone nodes leave the tree, and the clean is logged. |
| EntityPoses.EntityPose.BindTo | Ktisis/Scene/Entities/Skeleton/EntityPose.cs:93-94 | The new bone tree is attached below the entity, and the bind is logged. |
| EntityPoses.EntityPose.GetBoneFromMap | Ktisis/Scene/Entities/Skeleton/EntityPose.cs:131-132 | The node indexed under the key, or none when the key is absent. |
| EntityPoses.EntityPose.GetPartial | Ktisis/Scene/Entities/Skeleton/EntityPose.cs:134-135 | The id recorded for the partial, or none when it is absent. |
| EntityPoses.WithoutPartialMembers | Ktisis/Scene/Entities/Skeleton/EntityPose.cs:89-90 | Cleaning keeps exactly the nodes of the other partials. |
| EntityPoses.BonesOfMembers | Ktisis/Scene/Entities/Skeleton/EntityPose.cs:105-108 | The bone indices of a partial's nodes are exactly the bones of its nodes in the tree. |
| EntityPoses.AddNodesContents | Ktisis/Scene/Entities/Skeleton/EntityPose.cs:105-108 | Adding nodes never touches keys of other partials, and leaves one key per bone of the partial. |
| EntityPoses.AddNodesFresh | Ktisis/Scene/Entities/Skeleton/EntityPose.cs:107 | While no bone repeats, each `Add` finds its key absent. |
| EntityPoses.MapRebuiltContents | Ktisis/Scene/Entities/Skeleton/EntityPose.cs:102-109 | `BuildBoneMap` leaves every other partial's entries alone and keeps exactly this partial's nodes. |
| EntityPoses.UnchangedIdNoWork | Ktisis/Scene/Entities/Skeleton/EntityPose.cs:67-75 | An update with an unchanged id does no rebuild, clean, bind or map change. |
| EntityPoses.FirstSeenZeroNoWork | Ktisis/Scene/Entities/Skeleton/EntityPose.cs:67-75 | A partial first seen with id 0 is recorded and causes no other work. |
| EntityPoses.TreeRebuiltContents | Ktisis/Scene/Entities/Skeleton/EntityPose.cs:83-97 | A rebuild builds the tree in the owner's layout, cleans only if the previous id was non-zero, records the id, and binds only if the new id is non-zero. |
| EntityPoses.PartialUpdateWork | Ktisis/Scene/Entities/Skeleton/EntityPose.cs:67-97 | A rebuild happens iff the id changed. The layout is a category map for non-weapons and a flat list for weapons. A clean needs a non-zero previous id, and a bind needs a non-zero new id. |
| EntityPoses.PartialUpdateIds | Ktisis/Scene/Entities/Skeleton/EntityPose.cs:67-92 | Every update records the partial's current id, and changes no other record. |
| EntityPoses.PartialUpdateBoneMap | Ktisis/Scene/Entities/Skeleton/EntityPose.cs:96-109 | Other partials' entries are untouched. For id 0 no key of the partial remains; otherwise there is exactly one entry per bone node of the partial. |
| EntityPoses.PartialThrowsWhen | Ktisis/Scene/Entities/Skeleton/EntityPose.cs:93-109 | An update throws exactly on a rebuild to a non-zero id whose tree repeats a bone of the partial. |
| EntityPoses.UpdateThrowsStays | Ktisis/Scene/Entities/Skeleton/EntityPose.cs:59-60 | Once the update loop has thrown, every longer prefix has thrown too. |
| EntityPoses.UpdateUpToBoneMap | Ktisis/Scene/Entities/Skeleton/EntityPose.cs:59-60 | Updating partials `0 .. n-1` leaves every other partial's bone-index entries untouched. |
| EntityPoses.IdsAfterContents | Ktisis/Scene/Entities/Skeleton/EntityPose.cs:59-60 | After storing ids in order, partials `0 .. n-1` hold their current ids, and the other records are as before. |
| EntityPoses.UpdateUpToPartials | Ktisis/Scene/Entities/Skeleton/EntityPose.cs:55-61 | The update loop records each visited partial's current id, and changes no other record. |
| EntityPoses.CleanUpToLog | Ktisis/Scene/Entities/Skeleton/EntityPose.cs:43-53 | `Refresh` cleans every partial in order and keeps the records and the bone index. |
| EntityPoses.CleanUpToNodes | Ktisis/Scene/Entities/Skeleton/EntityPose.cs:47-52 | After `Refresh`, no node of a cleaned partial is left, and every other node is. |
| EntityPoses.RefreshForcesRebuild | Ktisis/Scene/Entities/Skeleton/EntityPose.cs:43-53 | After `Refresh`, every partial with a non-zero id is rebuilt and bound on the next update, without a clean. |
| Scenes.SceneObject.Detach | Ktisis/Scene/SceneGraph.cs:43 | `SetParent(null)`: the object leaves its parent's child list and has no parent. |
| Scenes.SceneGraph.constructor | Ktisis/Scene/SceneGraph.cs:17-19 | The graph starts with no roots and no notifications. |
| Scenes.SceneGraph.Update | Ktisis/Scene/SceneGraph.cs:29-32 | The scene-update event fires once, then each root is updated in list order. |
| Scenes.ObjectUpdates | Ktisis/Scene/SceneGraph.cs:31 | One update per object, in list order. |
| Scenes.SceneGraph.Remove | Ktisis/Scene/SceneGraph.cs:38-49 | Every object of the subtree is flagged removed, detached and emptied. A root leaves the root list; a child leaves its parent. One notification per object is logged, in post-order. |
| Scenes.SceneGraph.RemoveChildren | Ktisis/Scene/SceneGraph.cs:45-46 | The children's subtrees are removed in child order, and their notifications follow that order. |
| Scenes.SceneGraph.RemoveNext | Ktisis/Scene/SceneGraph.cs:46 | One child's subtree is removed and detached, and its notifications are appended. |
| Scenes.SceneGraph.Count | Ktisis/Scene/SceneGraph.cs:64 | The number of roots. |
| Scenes.SceneGraph.AddChild | Ktisis/Scene/SceneGraph.cs:66-68 | The object is appended to the roots. |
| Scenes.SceneGraph.RemoveChild | Ktisis/Scene/SceneGraph.cs:70-72 | The first occurrence of the object leaves the roots. |
| Scenes.AddRemoveRoundTrip | Ktisis/Scene/SceneGraph.cs:66-72 | Removing a root that was just added restores the root list. |
| Scenes.PreOrderForestAppend | Ktisis/Scene/SceneGraph.cs:77-83 | Traversing concatenated children lists concatenates the traversals. |
| Scenes.SiblingOrder | Ktisis/Scene/SceneGraph.cs:77-83 | A sibling's traversal sits between those of the earlier and the later siblings. |
| Scenes.PreOrderBlock | Ktisis/Scene/SceneGraph.cs:77-83 | A subtree's traversal is a contiguous block that starts with the node itself. |
| Scenes.PostOrderForestAppend | Ktisis/Scene/SceneGraph.cs:45-48 | Notifications of concatenated children lists are the concatenation of their notifications. |
| Scenes.SiblingNotifications | Ktisis/Scene/SceneGraph.cs:45-48 | A sibling's notifications come after the earlier siblings' and before the later ones'. |
| Scenes.PostOrderBlock | Ktisis/Scene/SceneGraph.cs:45-48 | A subtree's notifications are a contiguous block ending with its own node, so children are notified before their parent. |
| Scenes.PostOrderPermutes | Ktisis/Scene/SceneGraph.cs:45-48 | The notifications are a permutation of the pre-order traversal. |
| Scenes.PostOrderObjs | Ktisis/Scene/SceneGraph.cs:45-48 | The notifications name exactly the objects of the subtree. |
| Scenes.NotifiedOnce | Ktisis/Scene/SceneGraph.cs:45-48 | In a tree without shared objects, each node is notified exactly once. |
| Scenes.FindObjectTypeById | Ktisis/Scene/SceneGraph.cs:53-60 | Over the graph's forest (the trees whose roots are `objects`), the result is either none, when no object of the traversal matches, or a matching object of the traversal. |
| Scenes.FindObjectTypeByIdFirst | Ktisis/Scene/SceneGraph.cs:53-60 | A found object comes before every other match in the pre-order traversal. |
| SceneSelection.AddFrontOrder | Ktisis/Scene/Editing/SelectState.cs:43-47 | The item is first and appears exactly once. The other objects follow in their previous order. |
| SceneSelection.RemoveItemOrder | Ktisis/Scene/Editing/SelectState.cs:49-52 | The item is gone, and the rest keep their order. Both selection states remove items the same way (`Ktisis/Editing/SelectState.cs:58-61`). |
| SceneSelection.ClickSingle | Ktisis/Scene/Editing/SelectState.cs:61-74 | A plain click leaves `[item]`, or nothing when the item was flagged and at most one object was listed. |
| SceneSelection.ClickMultipleAdds | Ktisis/Scene/Editing/SelectState.cs:66-73 | A modifier click on an unselected object puts it in front of the unchanged selection. |
| SceneSelection.ClickMultipleRemovesLast | Ktisis/Scene/Editing/SelectState.cs:66-73 | A modifier click on the only selected object deselects it. |
| SceneSelection.ClickMultipleMovesFront | Ktisis/Scene/Editing/SelectState.cs:66-73 | With more than one selected, a modifier click keeps the item and moves it to the front, the rest in order. |
| SceneSelection.SelectState.constructor | Ktisis/Scene/Editing/SelectState.cs:17 | An empty, unattached selection. |
| SceneSelection.SelectState.Attach | Ktisis/Scene/Editing/SelectState.cs:19-21 | The state subscribes to the scene's removal notifications. |
| SceneSelection.SelectState.Count | Ktisis/Scene/Editing/SelectState.cs:30 | The length of the list. |
| SceneSelection.SelectState.GetManipulable | Ktisis/Scene/Editing/SelectState.cs:37-39 | Exactly the selected objects that are manipulable, and no more of them than are selected. They come in selection order (`Common.FilterKeepsOrder`). |
| Common.FilterKeepsOrder | Ktisis/Scene/Editing/SelectState.cs:37-39 | Two elements kept by the filter occur in the original list in the same order. The same holds for `Ktisis/Editing/SelectState.cs:46-48`. |
| SceneSelection.SelectState.Clear | Ktisis/Scene/Editing/SelectState.cs:32 | The list is emptied and every flag is left as it was. |
| SceneSelection.SelectState.AddItem | Ktisis/Scene/Editing/SelectState.cs:43-47 | The item is flagged and the list becomes `AddFront`. The flags keep mirroring the list. |
| SceneSelection.SelectState.RemoveItem | Ktisis/Scene/Editing/SelectState.cs:49-52 | The item's flag is cleared and it leaves the list. The flags keep mirroring the list. |
| SceneSelection.SelectState.RemoveAll | Ktisis/Scene/Editing/SelectState.cs:54-57 | Every listed object's flag is cleared, then the list is emptied. No other flag changes. |
| SceneSelection.SelectState.OnSceneObjectRemoved | Ktisis/Scene/Editing/SelectState.cs:25-26 | A removed object leaves the selection, and its flag is cleared. |
| SceneSelection.SelectState.HandleClick | Ktisis/Scene/Editing/SelectState.cs:61-74 | The list becomes `ClickResult`, and the flags keep mirroring the list. |
| SceneSelection.NotifyRemoved | Ktisis/Scene/Editing/SelectState.cs:25-26 | Each logged removal is delivered in log order, and each one evicts its object. |
| SceneSelection.RemoveNotifying | Ktisis/Scene/SceneGraph.cs:38-49 | After a removal and its notifications, no object of the subtree is selected or flagged. Other selections keep their order. |
| EditingSelection.AddBackOrder | Ktisis/Editing/SelectState.cs:52-56 | The item is last and appears exactly once. The other objects precede it in their previous order. |
| EditingSelection.ClickSingle | Ktisis/Editing/SelectState.cs:70-82 | A plain click leaves `[item]`, or nothing when the item was flagged and at most one object was listed. |
| EditingSelection.ClickCtrlAdds | Ktisis/Editing/SelectState.cs:70-82 | A Ctrl-click on an unselected object appends it. |
| EditingSelection.ClickCtrlRemovesLast | Ktisis/Editing/SelectState.cs:70-82 | A Ctrl-click on the only selected object deselects it. |
| EditingSelection.ClickCtrlMovesBack | Ktisis/Editing/SelectState.cs:70-82 | With more than one selected, a Ctrl-click keeps the item and moves it to the end, the rest in order. |
| EditingSelection.SameTruthTable | Ktisis/Editing/SelectState.cs:70-82 | Both editors' clicks select the same set of objects, differing only in where the item goes. |
| EditingSelection.ClearBreaksMirror | Ktisis/Editing/SelectState.cs:41 | After `Clear` of a non-empty list, the flags no longer mirror the list. |
| EditingSelection.SelectState.constructor | Ktisis/Editing/SelectState.cs:21 | An empty, unsubscribed selection with no events. |
| EditingSelection.SelectState.Update | Ktisis/Editing/SelectState.cs:23-28 | Without a scene it `Clear`s; with one it subscribes to removal notifications. |
| EditingSelection.SelectState.Count | Ktisis/Editing/SelectState.cs:39 | The length of the list. |
| EditingSelection.SelectState.GetManipulable | Ktisis/Editing/SelectState.cs:46-48 | Exactly the selected objects that are transformable. They come in selection order (`Common.FilterKeepsOrder`). |
| EditingSelection.SelectState.Clear | Ktisis/Editing/SelectState.cs:41 | The list is emptied and the flags are left as they were. |
| EditingSelection.SelectState.AddItem | Ktisis/Editing/SelectState.cs:52-56 | The item is flagged and the list becomes `AddBack`. The flags keep mirroring the list. |
| EditingSelection.SelectState.RemoveItem | Ktisis/Editing/SelectState.cs:58-61 | The item's flag is cleared and it leaves the list, the rest in order (`SceneSelection.RemoveItemOrder`). The flags keep mirroring the list. |
| EditingSelection.SelectState.RemoveAll | Ktisis/Editing/SelectState.cs:63-66 | Every listed object's flag is cleared, then the list is emptied. |
| EditingSelection.SelectState.OnSceneObjectRemoved | Ktisis/Editing/SelectState.cs:34-35 | A removed object leaves the selection, and its flag is cleared. |
| EditingSelection.SelectState.HandleClick | Ktisis/Editing/SelectState.cs:70-85 | The list becomes `ClickResult`, and exactly one `OnSelectionChanged` is raised after the change. |
| EditingSelection.NotifyRemoved | Ktisis/Editing/SelectState.cs:34-35 | Each logged removal is delivered in log order, and each one evicts its object. |
| EditingSelection.RemoveNotifying | Ktisis/Scene/SceneGraph.cs:38-49 | After a removal and its notifications, no object of the subtree is selected or flagged. |
| Customization.GetCustomization | Ktisis/Editor/Characters/Handlers/CustomizeEditor.cs:13-20 | An invalid actor reads 0. Otherwise the appearance state wins over the game buffer, and a missing character reads 0. |
| Customization.RedrawIndices | Ktisis/Editor/Characters/Handlers/CustomizeEditor.cs:71-76 | A redraw is required exactly for race, tribe, gender and face type. |
| Customization.ReadsBySlot | Ktisis/Editor/Characters/Handlers/CustomizeEditor.cs:35-45 | Reads and `IsCurrentValue` depend only on validity and the index's slot. |
| Customization.GetAfterWrite | Ktisis/Editor/Characters/Handlers/CustomizeEditor.cs:49-59 | A write to an invalid actor changes nothing. On a valid actor it is read back and is current. Other indices keep their slots. |
| Customization.CurrentIsRead | Ktisis/Editor/Characters/Handlers/CustomizeEditor.cs:35-45 | A value current on a valid actor is the value read. |
| Customization.UpdateRedraws | Ktisis/Editor/Characters/Handlers/CustomizeEditor.cs:61-69 | With a human model, the actor is redrawn iff a redraw was asked for or the in-place update failed. The in-place update is tried iff no redraw was asked for. |
| Customization.BatchKeepsOthers | Ktisis/Editor/Characters/Handlers/CustomizeEditor.cs:128-135 | A batch leaves validity, the character's presence and every index outside it alone. |
| Customization.BatchSets | Ktisis/Editor/Characters/Handlers/CustomizeEditor.cs:128-135 | On a valid actor, each batched index reads its batched value afterwards. |
| Customization.BatchRedraw | Ktisis/Editor/Characters/Handlers/CustomizeEditor.cs:129-134 | A redraw is asked for iff the character is written and some redraw index held a different value. |
| Customization.BatchSkipsCurrent | Ktisis/Editor/Characters/Handlers/CustomizeEditor.cs:131 | A batch of current values changes nothing and asks for no redraw. |
| Customization.EyesMatchAfterLink | Ktisis/Editor/Characters/Handlers/CustomizeEditor.cs:86-88 | Turning heterochromia off links the eyes: on a valid actor, `EyeColor` and `EyeColor2` both read the old `EyeColor2` colour. |
| Customization.Actor.constructor | Ktisis/Editor/Characters/Handlers/CustomizeEditor.cs:10 | An actor with no appearance state and no draw calls yet. |
| Customization.CustomizeEditor.constructor | Ktisis/Editor/Characters/Handlers/CustomizeEditor.cs:10 | An editor on the actor, with no heterochromia answer recorded. |
| Customization.CustomizeEditor.SetCustomizeValue | Ktisis/Editor/Characters/Handlers/CustomizeEditor.cs:49-59 | The actor becomes `Write`, and the result says whether the game character was written. |
| Customization.CustomizeEditor.UpdateCustomizeData | Ktisis/Editor/Characters/Handlers/CustomizeEditor.cs:61-69 | The draw calls are `UpdateEvents`. |
| Customization.CustomizeEditor.SetCustomization | Ktisis/Editor/Characters/Handlers/CustomizeEditor.cs:30-33 | A write, then the draw calls `SetEvents`: a draw-data update only when the game character was written. |
| Customization.CustomizeEditor.GetHeterochromia | Ktisis/Editor/Characters/Handlers/CustomizeEditor.cs:91-101 | The first query records whether the eyes differ. Later queries can only turn the answer on. |
| Customization.CustomizeEditor.SetHeterochromia | Ktisis/Editor/Characters/Handlers/CustomizeEditor.cs:83-89 | The choice is recorded. Turning it off writes the `EyeColor2` colour into `EyeColor`, with the draw calls of `SetCustomization` (`SetEvents`). |
| Customization.CustomizeEditor.SetEyeColor | Ktisis/Editor/Characters/Handlers/CustomizeEditor.cs:103-108 | The actor becomes `ApplyBatch` of the batch `EyeColor`, then `EyeColor2` unless heterochromia is on, all set to the value. The draw data is updated once, with that batch's redraw flag. So `EyeColor` reads the value; `EyeColor2` does too unless heterochromia is on, and otherwise keeps its slot. |
| Customization.CustomizeEditor.PrepareEyeBatch | Ktisis/Editor/Characters/Handlers/CustomizeEditor.cs:104-106 | The batch holds `EyeColor` and, when the heterochromia query says no, `EyeColor2`, both set to the value. The query's answer is remembered. |
| Customization.EyeBatch | Ktisis/Editor/Characters/Handlers/CustomizeEditor.cs:103-108 | On a valid actor the eye batch sets `EyeColor`, and `EyeColor2` unless heterochromia is on. With heterochromia on, `EyeColor2` keeps its slot. |
| Customization.CustomizeBatch.constructor | Ktisis/Editor/Characters/Handlers/CustomizeEditor.cs:114-115 | An empty batch on the editor. |
| Customization.CustomizeBatch.SetCustomization | Ktisis/Editor/Characters/Handlers/CustomizeEditor.cs:117-120 | The last value set for an index wins, and a new index goes last. |
| Customization.CustomizeBatch.SetIfNotNull | Ktisis/Editor/Characters/Handlers/CustomizeEditor.cs:122-126 | A missing value changes nothing. Otherwise it behaves like `SetCustomization`: the value is set, and a new index goes last in the order `Apply` writes in. |
| Customization.CustomizeBatch.Apply | Ktisis/Editor/Characters/Handlers/CustomizeEditor.cs:128-135 | The actor becomes `ApplyBatch`'s result, and the draw data is updated once with its redraw flag. |
| CustomizeDiscovery.RaceOf | Ktisis/Services/CustomizeDiscoveryService.cs:31 | `Floor((tribe + 1) / 2)`: tribes `2r-1` and `2r` belong to race `r`. |
| CustomizeDiscovery.HyurIds | Ktisis/Services/CustomizeDiscoveryService.cs:29-30 | Midlander is 101/201 and Highlander is 301/401 (masculine/feminine). |
| CustomizeDiscovery.RaceIds | Ktisis/Services/CustomizeDiscoveryService.cs:31-37 | Elezen, Miqo'te, Roegadyn and Lalafell give 501, 701, 901 and 1101. Any other race `r` gives `1301 + (r-6)*200`. The ids are positive. |
| CustomizeDiscovery.FeminineIsMasculinePlus100 | Ktisis/Services/CustomizeDiscoveryService.cs:28-37 | For every tribe, the feminine id is the masculine id plus 100. |
| CustomizeDiscovery.DigitsValue | Ktisis/Services/CustomizeDiscoveryService.cs:76 | Reading back the decimal digits gives the number. |
| CustomizeDiscovery.D4RoundTrip | Ktisis/Services/CustomizeDiscoveryService.cs:76 | `{0:D4}` of a number below 10000 is four digits that spell the number. |
| CustomizeDiscovery.FacePathEmbedsIds | Ktisis/Services/CustomizeDiscoveryService.cs:74-78 | The path holds the data id at two fixed places and the face id at two others, each zero-padded to four digits. |
| CustomizeDiscovery.FacePathInjective | Ktisis/Services/CustomizeDiscoveryService.cs:74-78 | Different ids below 10000 never name the same file. |
| CustomizeDiscovery.GetFaceTypes | Ktisis/Services/CustomizeDiscoveryService.cs:46-51 | Exactly the valid ids in 0..255, ascending. |
| CustomizeDiscovery.BestFaceNone | Ktisis/Services/CustomizeDiscoveryService.cs:55-69 | With no valid id below 255, the current face is kept. |
| CustomizeDiscovery.BestFaceFirst | Ktisis/Services/CustomizeDiscoveryService.cs:58-60 | A first valid id above the current face is the answer. |
| CustomizeDiscovery.BestFaceRun | Ktisis/Services/CustomizeDiscoveryService.cs:61-64 | Otherwise, the last id of the first run of valid ids is the answer. When that run is still open at 254, the current face is kept. |
| CustomizeDiscovery.FindBestFaceTypeFor | Ktisis/Services/CustomizeDiscoveryService.cs:53-70 | The result is `BestFace` of the current face and the validity test. |
| CustomizeDiscovery.ScanFaces | Ktisis/Services/CustomizeDiscoveryService.cs:55-69 | The loop with its `isRangeValid` flag computes `BestFace` for any validity test. |
| CustomizeUi.ParamValue | Ktisis/Interface/Components/Actors/CustomizeEditorUi.cs:163-172 | A set bit 7 of the stored byte stays set in the written byte. A clear bit 7 stays clear only for inputs in the range `ParamRoundTrip` covers: a larger input can set it. |
| CustomizeUi.ShownInRange | Ktisis/Interface/Components/Actors/CustomizeEditorUi.cs:164-170 | The shown number is never below the input's lower bound. |
| CustomizeUi.ParamRoundTrip | Ktisis/Interface/Components/Actors/CustomizeEditorUi.cs:164-171 | An accepted number is shown back as typed, and bit 7 is kept. |
| CustomizeUi.FlipBitBound | Ktisis/Interface/Components/Actors/CustomizeEditorUi.cs:331 | Flipping a bit below 8 keeps a byte a byte. |
| CustomizeUi.ToggleFlipsOneBit | Ktisis/Interface/Components/Actors/CustomizeEditorUi.cs:320-331 | Button `k` flips bit `k` and no other bit. |
| CustomizeUi.ToggleTwice | Ktisis/Interface/Components/Actors/CustomizeEditorUi.cs:331 | Pressing a button twice restores the byte. |
| CustomizeUi.OneToggle | Ktisis/Interface/Components/Actors/CustomizeEditorUi.cs:303-333 | With one button pressed, a valid actor's features read the old byte with that bit flipped. |
| CustomizeUi.NoneToggled | Ktisis/Interface/Components/Actors/CustomizeEditorUi.cs:303-333 | With no button pressed, the actor is unchanged. |
| CustomizeUi.IconInputRules | Ktisis/Interface/Components/Actors/CustomizeEditorUi.cs:255-260 | A face type must be offered by some parameter. Every other icon index takes any number. |
| CustomizeUi.DrawFeatParams | Ktisis/Interface/Components/Actors/CustomizeEditorUi.cs:159-174 | Only an input at or above the lower bound is written, as `ParamValue`, with the draw calls of `SetCustomization`. Otherwise nothing changes. |
| CustomizeUi.DrawBodySelect | Ktisis/Interface/Components/Actors/CustomizeEditorUi.cs:123-127 | The body button writes gender 0 when the current gender is feminine, and 1 otherwise, with the draw calls of `SetCustomization`. |
| CustomizeUi.DrawTribeSelect | Ktisis/Interface/Components/Actors/CustomizeEditorUi.cs:129-141 | The actor becomes `ApplyBatch` of the batch `Tribe`, `Race` (the tribe and its race), and the draw data is updated once with its redraw flag. A valid actor then reads both. |
| CustomizeUi.DrawFeatIconParams | Ktisis/Interface/Components/Actors/CustomizeEditorUi.cs:235-263 | Without the feature nothing is written. Otherwise an accepted input is written, truncated to a byte, with the draw calls of `SetCustomization`. |
| CustomizeUi.DrawFacialFeaturesGroup | Ktisis/Interface/Components/Actors/CustomizeEditorUi.cs:303-333 | Button `k` is shown active iff bit `k` is set. Each pressed button writes the old byte with that bit flipped. |
| CustomizeUi.DrawFacialFeatureInput | Ktisis/Interface/Components/Actors/CustomizeEditorUi.cs:295-297 | A returned number is written to the facial features as a byte, with the draw calls of `SetCustomization`. No number writes nothing. |
| Commands.AddKeepsValid | Ktisis/Services/CommandService.cs:37-40 | `Add` keeps the registry consistent, so no name reaches the command manager twice. |
| Commands.AddTwice | Ktisis/Services/CommandService.cs:37-40 | A second `Add` of the same name changes nothing. |
| Commands.Removals | Ktisis/Services/CommandService.cs:54-57 | One removal per registered name, in register order. |
| Commands.DisposeRemovesEachOnce | Ktisis/Services/CommandService.cs:54-57 | Every name handed to the manager is removed exactly once, and no other name is removed. |
| Commands.AliasCalls | Ktisis/Services/CommandService.cs:102-106 | One hidden `AddHandler` per alias, in order. |
| Commands.AliasesInOrder | Ktisis/Services/CommandService.cs:97-106 | Fresh aliases are registered in order, each hidden from help. |
| Commands.CreateOrder | Ktisis/Services/CommandService.cs:97-100 | The main command goes first, then each alias in insertion order. |
| Commands.CreatedValid | Ktisis/Services/CommandService.cs:97-100 | `Create` keeps the registry consistent for any names. |
| Commands.AliasesValid | Ktisis/Services/CommandService.cs:99 | Adding aliases keeps the registry consistent and registers exactly the new names. |
| Commands.HelpTextUnchanged | Ktisis/Services/CommandService.cs:110-115 | The help text is the message unchanged iff the message is empty or there are no aliases. |
| Commands.HelpTextLayout | Ktisis/Services/CommandService.cs:112-114 | The layout is the message, a newline, two spaces per name character, " (Aliases: ", the list, and ')'. |
| Commands.HelpTextListsAlias | Ktisis/Services/CommandService.cs:114 | Every alias occurs after " (Aliases: ". |
| Commands.JoinContains | Ktisis/Services/CommandService.cs:114 | Every element occurs in the joined string. |
| Commands.CommandService.constructor | Ktisis/Services/CommandService.cs:19-27 | Nothing is registered. |
| Commands.CommandService.RegisterHandlers | Ktisis/Services/CommandService.cs:31-35 | `/ktisis` is added with its help message and shown in help. |
| Commands.CommandService.Add | Ktisis/Services/CommandService.cs:37-40 | The registry becomes `WithCommand`: a name reaches the manager only the first time. |
| Commands.CommandService.Dispose | Ktisis/Services/CommandService.cs:54-57 | The manager receives `Removals`. |
| Commands.CommandFactory.constructor | Ktisis/Services/CommandService.cs:72-77 | No aliases, hidden from help, no message. |
| Commands.CommandFactory.SetMessage | Ktisis/Services/CommandService.cs:81-85 | The command is shown in help with this message. |
| Commands.CommandFactory.AddAlias | Ktisis/Services/CommandService.cs:87-90 | The alias is appended. |
| Commands.CommandFactory.AddAliases | Ktisis/Services/CommandService.cs:92-95 | The aliases are appended in the given order. |
| Commands.CommandFactory.Create | Ktisis/Services/CommandService.cs:97-100 | The registry becomes `Created`: the main command, then each alias. |
| Commands.CommandFactory.CreateAlias | Ktisis/Services/CommandService.cs:102-106 | The alias is added with the same handler, hidden from help. |
| GPose.TickRules | Ktisis/Services/GPoseService.cs:56-65 | `StateChanged` fires iff the state changed, and it carries the new state. `Update` fires iff the state is on, after any change. |
| GPose.RunEndsOnLast | Ktisis/Services/GPoseService.cs:59 | After a run, `_isActive` is the last observed state. |
| GPose.ChangesCounted | Ktisis/Services/GPoseService.cs:58-62 | A run raises exactly one `StateChanged` per change of state. |
| GPose.SteadyStateQuiet | Ktisis/Services/GPoseService.cs:58 | Updates that all observe the known state raise no `StateChanged`. |
| GPose.FirstUpdateInGPose | Ktisis/Services/GPoseService.cs:36 | Starting off, the first update in group pose raises `StateChanged(true)` and then `Update`. |
| GPose.GPoseService.constructor | Ktisis/Services/GPoseService.cs:36 | The watcher starts off and unsubscribed. |
| GPose.GPoseService.Subscribe | Ktisis/Services/GPoseService.cs:52-54 | Framework updates reach the service. |
| GPose.GPoseService.Dispose | Ktisis/Services/GPoseService.cs:67-69 | Framework updates stop reaching the service. |
| GPose.GPoseService.FrameworkUpdate | Ktisis/Services/GPoseService.cs:52-54 | An update is handled only while subscribed. |
| GPose.GPoseService.OnFrameworkUpdate | Ktisis/Services/GPoseService.cs:56-65 | The observed state is stored and `TickEvents` are raised. |
| Gizmos.ManipulateOnce | Ktisis/Interface/Overlay/Gizmo.cs:95-111 | After the first `Manipulate` of a frame, later calls change nothing. |
| Gizmos.FrameRules | Ktisis/Interface/Overlay/Gizmo.cs:77-115 | A frame calls the native gizmo at most once, and `HasMoved` is that call's answer. `IsEnded` is set iff the gizmo was in use at begin and not at end. |
| Gizmos.SteadyUseNeverEnds | Ktisis/Interface/Overlay/Gizmo.cs:88-114 | A steady in-use state never ends a frame. |
| Gizmos.Gizmo.constructor | Ktisis/Interface/Overlay/Gizmo.cs:40-68 | Defaults: scale 0.1, local, universal, axis flip allowed, not ended, identity matrices. |
| Gizmos.Gizmo.SetMatrix | Ktisis/Interface/Overlay/Gizmo.cs:72-75 | The view and projection are stored unchanged. |
| Gizmos.Gizmo.BeginFrame | Ktisis/Interface/Overlay/Gizmo.cs:77-89 | The frame flags are reset, the native settings are copied, and the in-use state is recorded. |
| Gizmos.Gizmo.Manipulate | Ktisis/Interface/Overlay/Gizmo.cs:95-111 | The first call forwards the stored matrices and returns the native answer. Later calls return false, `mx` and the identity. |
| Gizmos.Gizmo.EndFrame | Ktisis/Interface/Overlay/Gizmo.cs:113-115 | `IsEnded` is the falling edge of the in-use state. |
| Skeletons.PoseIndicesSpec | Ktisis/Overlay/SkeletonEditor.cs:106-111 | One bone list per entry with a pose, in ascending index order. |
| Skeletons.LinkTableSpec | Ktisis/Overlay/SkeletonEditor.cs:117-123 | The link table's keys are exactly the root-bone names of later partials. Each key maps to those partials' indices, ascending. |
| Skeletons.Bone.constructor | Ktisis/Overlay/SkeletonEditor.cs:111 | A new bone of a list, not yet a root and not linked. |
| Skeletons.BoneList.constructor | Ktisis/Overlay/SkeletonEditor.cs:111 | One fresh bone per name, indexed in order. |
| Skeletons.SkeletonEditor.constructor | Ktisis/Overlay/SkeletonEditor.cs:26-31 | Visible, with no skeleton and no selection. |
| Skeletons.SkeletonEditor.Show | Ktisis/Overlay/SkeletonEditor.cs:68-70 | `Visible` is true. |
| Skeletons.SkeletonEditor.Hide | Ktisis/Overlay/SkeletonEditor.cs:72-74 | `Visible` is false. |
| Skeletons.SkeletonEditor.SelectBone | Ktisis/Overlay/SkeletonEditor.cs:84-90 | No model is a no-op. Otherwise the selection is (list id, bone index). |
| Skeletons.SkeletonEditor.BuildSkeleton | Ktisis/Overlay/SkeletonEditor.cs:94-135 | The skeleton becomes a fresh list: empty without a model, otherwise one list per posed entry with its first bone a root. Bones of the first list named in the link table are linked. |
| Skeletons.SkeletonEditor.CreateLists | Ktisis/Overlay/SkeletonEditor.cs:106-126 | The first loop builds lists matching the index, disjoint, each rooted, and the link table. |
| Skeletons.SkeletonEditor.SetLinks | Ktisis/Overlay/SkeletonEditor.cs:130-134 | Bones named in the table get their link. Other bones and every root flag are untouched. |
| Skeletons.RootedList | Ktisis/Overlay/SkeletonEditor.cs:111-114 | A new list whose first bone is flagged as the root. |

## Left out

- Floating-point maths: transforms are records of opaque components. Rotations form a free term
  algebra in which only the identity laws of `Mul` and `Div` hold. The gizmo scale is a `real`.
- Havok access (`HavokPoseUtil.GetModelTransform`, `SetModelTransform`, `Propagate`) is not part
  of this model. The host skeleton is a value: its partials, a map of model transforms, and a log
  of writes. Propagation moves the other bones of a partial by a caller-given function. A pose
  without a skeleton is taken to still have a model transform at each connector index that
  `ParentSkeleton` reads.
- Posing.PoseContainer.ApplyToBones, Posing.PoseContainer.ApplyToPartial: these dereference the
  skeleton without a null check, so they require a non-null, well-formed host.
- Posing.PoseContainer.ApplyToRange: the bone loop of `ApplyToPartialBones` is its own method. The
  inlined loop does not fit the verifier's resource budget.
- Posing.BonesEffect: a bone index outside its partial would be a host error. It is treated as a
  no-op, since no caller passes one.
- EntityPoses.EntityPose.UpdatePartial: the bone tree builder, `Clean` and `BindTo` are not part of
  this model. The builder is a function of (index, id, partial, layout), and `Clean` is assumed to
  drop exactly that partial's nodes.
- EntityPoses.EntityPose.BuildBoneMap: when `Dictionary.Add` throws, the model returns `ok = false`
  and says nothing about the state after the throw.
- Scenes.SceneGraph.Remove: `SceneObject` is not part of this model. `SetParent(null)` is taken to
  leave the parent's child list. `Remove` iterates a snapshot of the children taken before the
  loop, and nothing is claimed about live-list mutation. The subtree is described by a ghost tree
  value, and objects belong to an explicit universe `u` of scene objects.
- SceneSelection.RemoveNotifying, EditingSelection.RemoveNotifying: removal notifications are
  delivered after `Remove` finishes rather than interleaved with it. The handlers touch disjoint
  state, so the outcome is the same.
- Enum values that live outside these files (Race, Tribe, Gender, `CustomizeIndex`) take the game
  client's numbering: Hyur 1, Elezen 2, Lalafell 3, Miqo'te 4, Roegadyn 5; Midlander 1,
  Highlander 2; masculine 0, feminine 1; race 0 and tribe 4 in the customisation array.
- Customization.CustomizeBatch.Apply: the dictionary is walked in insertion order. The batch's
  `Dispatch`, used by the widgets, is modelled as `Apply`.
- CustomizeUi.DrawFacialFeaturesGroup: `Math.Pow(2, i - 1)` cast to a byte is unspecified beyond
  bit 7, so at most eight buttons are drawn. ImGui widgets are not modelled; what each returns
  (the number entered, whether a button was pressed) is a parameter.
- `DrawSlider`, `DrawCustomizeParams` and other pure layout code are not part of this model.
- CustomizeDiscovery.IsFaceIdValidFor: the game data's file-existence check is a predicate
  parameter.
- CustomizeDiscovery.FindBestFaceTypeFor: face ids are natural numbers. The loop is factored into
  `ScanFaces`.
- Commands.CommandService.Dispose, Commands.Removals, Commands.DisposeRemovesEachOnce: the
  registered names are removed in insertion order. .NET does not promise any `HashSet`
  enumeration order, so the model fixes one; the set of removed names does not depend on it.
- GPose.GPoseService.Subscribe: the subscription is a flag. Subscribing twice in .NET adds the
  handler twice and delivers every tick twice; the model delivers it once.
- Commands.CommandFactory.Create: the `HashSet` is walked in insertion order. Dalamud's
  `CommandInfo` is a record of handler, `ShowInHelp` and `HelpMessage`, whose message defaults to
  the empty string. The main command's window toggle and the log output are not modelled.
- Gizmos.Gizmo.Manipulate: the native ImGuizmo library is not part of this model. Its in-use state
  and what `Manipulate` returns are inputs. The `Operation` enum keeps only four members.
  `PushDrawList` is not modelled.
- Skeletons.SkeletonEditor.BuildSkeleton: `BoneList`'s constructor is not part of this model; it
  is taken to make one bone per pose name. Every pose is assumed to have at least one bone, since
  `bones[0]` is read. `Skeleton[0]` on an empty list throws, which is modelled as `ok = false`.
  Lists passed to `LinkedTo` are values, not shared references. `Draw` and `BoneMod.SnapshotBone`
  are not modelled.
