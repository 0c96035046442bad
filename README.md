# react-three scene-graph synchroniser, modelled in Dafny

react-three keeps a React component tree in step with a three.js scene graph.
This project models the sequential core of that library and proves what each
part promises:

- **Layered draw-order list** (`render_lists.dfy`, module `RenderLists`). It is a
  pool of render items reused from frame to frame. A cursor marks how much of the
  pool is in use. Each pushed item goes into an opaque or a transparent bucket.
  `sort` orders each bucket with a comparator whose most significant key is the
  render-order group. The comparators are proved to be the lexicographic order of
  an explicit key, on items whose groups and programs they can tell apart. Sorting
  is proved to be a permutation that leaves each bucket sorted.
- **Render-order groups** (`three_extensions.dfy`, module `ThreeExtensions`). A
  group is set on or cleared from one native node, or from its whole subtree. The
  walk is proved to touch only the nodes it reaches. It gives every one of them the
  same group, whatever they held before, and running it twice is running it once.
- **Component bookkeeping** (`components.dfy`, module `Components`). This is what
  every component shares:
  - child slots keyed `index[i]` by position;
  - one bound ref callback per slot, made once and reused;
  - the user's own refs, remembered and forwarded;
  - the registered child components, in insertion order.
- **Scene-graph synchroniser and hit-test index** (`scene_graph.dfy`, module
  `SceneGraph`). It covers:
  - the object component, with its hit-test and visibility flags, its native node,
    and the back-reference that guards its subscription to the index;
  - the polygon component (mesh, geometry, material);
  - the scene component (camera rule, frame hooks, unmount);
  - the raycaster: the index of subscribed nodes and the dispatch of ray queries
    on the shape of the target.

  The methods are proved to keep an invariant: a node is in the index exactly
  when it carries its component's back-reference, and the scene's own node is
  never in it. Every method that subscribes or unsubscribes a node, the setters,
  `setObject3D`, the mounts and the unmounts included, is proved to leave the
  index membership of every other node as it was. A component whose flags changed is proved subscribed exactly when
  it has a node and is hit-test visible and visible. `update()` is proved to visit
  the component tree in pre-order, children in key order.
- **Frame time** (`time_info.dfy`, module `Timing`). Setting `current` records the
  step from the previous value as `delta`. In every reachable state, `current` is
  the sum of all the steps so far.
- **Renderer** (`renderer.dfy`, module `Renderer`). This covers:
  - the render-list cache the renderer installs, keyed by scene id and camera id;
  - the fixed sequence of calls that draws one frame;
  - the request-timer and animation-frame tokens that schedule frames.
- **Native nodes** (`native.dfy`, module `Native`). These are the few three.js
  fields the core reads and writes, and the effect of `add`/`remove` on a node's
  `children`.

### How the model is shaped

**Modules.** Each source file has its own module, except four. `ThreeObject`,
`ThreePolygon`, `ThreeScene` and `Raycaster` import one another, so they share the
module `SceneGraph`.

**Inheritance.** It becomes composition:
- `ThreePolygon` and `ThreeScene` hold their `ThreeObject` as `base`.
- The bookkeeping of `ThreeComponent` is the class `ComponentRegistry`, held by
  `ThreeObject` and so by the polygon and the scene. The renderer holds none: its
  `ComponentMounted` and `ComponentUnmounted` are called directly.

**The index.** three.js calls are not modelled. The octree is a value with two
sets. It is created with `undeferred: false`, so an added node waits in `pending`
until the next `update()` moves it to `indexed`. A search sees `indexed` only.

**Library calls.** `intersectObject`, `intersectObjects`, the octree search and
the camera ray are function-valued fields of a `Library` parameter.

**Generators.** They become the sequences they would yield.

**Frames.** Timers and animation frames are optional handles. The host calls
`RenderCallback` or `RenderLoop` when one fires. A frame returns the list of calls
it made.

**Identities.** The ids of a new camera, scene node or mesh are method parameters.

## Model

| member | source | states |
|---|---|---|
| RenderLists.PainterSortStable | src/Internal/WebGLRenderLists.tsx:12-26 | the opaque comparator: group first, then render order, program, material, z and id; its meaning is stated by `CompareMatchesKey` |
| RenderLists.ReversePainterSortStable | src/Internal/WebGLRenderLists.tsx:28-38 | the transparent comparator: group first, then render order, z descending and id; its meaning is stated by `CompareMatchesKey` |
| RenderLists.Compare | src/Internal/WebGLRenderLists.tsx:90-96 | the comparator each bucket is sorted with: the opaque one for the opaque bucket, the transparent one for the transparent bucket |
| RenderLists.ItemFor | src/Internal/WebGLRenderLists.tsx:56-82 | the fields a pushed render item takes from the node, geometry, material, depth and draw group; `Push` states them |
| RenderLists.CompareMatchesKey | src/Internal/WebGLRenderLists.tsx:12-38 | on comparable items each comparator's sign is the lexicographic order of the key (group with absent as `MIN_SAFE_INTEGER`, render order, program, material, z, id; or group, render order, z descending, id) |
| RenderLists.GroupKeyInjective | src/Internal/WebGLRenderLists.tsx:13-14 | distinct groups that are absent or neither 0 nor `MIN_SAFE_INTEGER` have distinct sort keys, so the group test and the subtraction agree |
| RenderLists.CompareTotal | src/Internal/WebGLRenderLists.tsx:12-38 | on comparable items the comparator is antisymmetric, and it returns 0 exactly when the keys are equal |
| RenderLists.CompareTransitive | src/Internal/WebGLRenderLists.tsx:12-38 | on comparable items "not after" is transitive, so the comparator is a consistent order for `Array.prototype.sort` |
| RenderLists.InsertPermutes | src/Internal/WebGLRenderLists.tsx:91 | inserting an item into a bucket adds exactly that item |
| RenderLists.SortPermutes | src/Internal/WebGLRenderLists.tsx:89-97 | sorting a bucket keeps the same items, each as often |
| RenderLists.InsertSorted | src/Internal/WebGLRenderLists.tsx:91 | inserting a comparable item into a sorted bucket leaves it sorted |
| RenderLists.SortSorted | src/Internal/WebGLRenderLists.tsx:89-97 | a bucket of pairwise comparable items is sorted by its comparator after sorting |
| RenderLists.SortedByKey | src/Internal/WebGLRenderLists.tsx:12-38 | in a sorted bucket of comparable items, keys ascend: the opaque bucket by group, render order, program, material, z, id; the transparent bucket by group, render order, z descending, id |
| RenderLists.GroupsAscend | src/Internal/WebGLRenderLists.tsx:13-14 | in a sorted bucket of comparable items, groups never decrease |
| RenderLists.UngroupedFirst | src/Internal/WebGLRenderLists.tsx:29-30 | an ungrouped item comes before every item with a group above `MIN_SAFE_INTEGER`, whatever the depths |
| RenderLists.FartherFirst | src/Internal/WebGLRenderLists.tsx:33-34 | in the sorted transparent bucket, among items of one group and render order, the farther one (larger z) comes first |
| RenderLists.SortShort | src/Internal/WebGLRenderLists.tsx:90-96 | sorting a bucket of at most one item leaves it as it is |
| RenderLists.SortBucket | src/Internal/WebGLRenderLists.tsx:89-97 | what `sort` leaves in a bucket is a permutation of it, and it is sorted when the items are comparable |
| RenderLists.WebGLRenderList.constructor | src/Internal/WebGLRenderLists.tsx:42-46 | pool and buckets start empty, with the cursor at 0 |
| RenderLists.WebGLRenderList.Init | src/Internal/WebGLRenderLists.tsx:48-52 | the cursor is 0 and both buckets are empty; the pool is kept for reuse |
| RenderLists.WebGLRenderList.Push | src/Internal/WebGLRenderLists.tsx:54-87 | the slot at the cursor is overwritten, or appended when the pool ends there, with an item whose fields come from the arguments, the node and the material; the item is appended to the transparent bucket exactly when the material is transparent and to the opaque one otherwise; the cursor moves by one; the buckets together hold exactly the pool's items below the cursor |
| RenderLists.WebGLRenderList.AddToPool | src/Internal/WebGLRenderLists.tsx:56-86 | the slot at the cursor holds the item and the cursor moves by one; the items in use grow by exactly that item |
| RenderLists.WebGLRenderList.Sort | src/Internal/WebGLRenderLists.tsx:89-97 | a bucket with more than one item is sorted by its comparator; each bucket keeps its items, so nothing moves between buckets; the pool and the cursor are unchanged |
| ThreeExtensions.GetRenderOrderGroup | src/ThreeExtensions.tsx:8-10 | the group stored on the node, absent when none is stored |
| ThreeExtensions.GroupReadBack | src/ThreeExtensions.tsx:8-17 | reading the group right after setting it gives back a truthy argument as it is, and otherwise no truthy group |
| ThreeExtensions.StoredGroup | src/ThreeExtensions.tsx:13-17 | a truthy group is stored; an absent or 0 argument leaves no truthy group, and deletes any stored group other than 0 |
| ThreeExtensions.StoredGroupIdempotent | src/ThreeExtensions.tsx:11-17 | applying the same argument to a node twice gives the same group as once |
| ThreeExtensions.StoredGroupOverwrites | src/ThreeExtensions.tsx:13-17 | the new group does not depend on the old one, except for clearing a stored 0 |
| ThreeExtensions.SetRenderOrderGroup | src/ThreeExtensions.tsx:11-25 | every node reached (the node, and with `recursive` its whole subtree) gets its new group from the argument and its old group; no other node and no other field changes |
| ThreeExtensions.SetDescendantGroups | src/ThreeExtensions.tsx:19-24 | the nodes below the children, visited in order, get their new groups; the node itself keeps its group |
| ThreeExtensions.SetRenderOrderGroupTwice | src/ThreeExtensions.tsx:11-25 | two calls with the same arguments leave every reached node with the group that one call gives it |
| Components.SlotKey | src/ThreeComponent.tsx:46 | the key of the slot at a position, `index[<position>]`; `SlotKeyInjective` states that it tells positions apart |
| Components.Decimal | src/ThreeComponent.tsx:46 | the numeral of a position has at least one digit, and at least two from 10 on |
| Components.DecimalInjective | src/ThreeComponent.tsx:46 | different positions give different numerals |
| Components.SlotKeyInjective | src/ThreeComponent.tsx:46 | the keys `index[i]` and `index[j]` are equal exactly when `i == j` |
| Components.Without | src/ThreeComponent.tsx:79 | deleting a key leaves exactly the other keys |
| Components.WithoutNoDuplicates | src/ThreeComponent.tsx:79 | deleting a key from a duplicate-free key list leaves it duplicate-free |
| Components.WithoutKeepsOrder | src/ThreeComponent.tsx:79 | deleting a key cuts out its one occurrence, and the other keys keep their order |
| Components.ComponentRegistry.constructor | src/ThreeComponent.tsx:9-11 | components, refs and saved refs start empty |
| Components.ComponentRegistry.ConnectChildren | src/ThreeComponent.tsx:40-68 | every element child gets the bound ref of its slot and the ref it carried is saved for that slot; every other child passes through unchanged; existing bound refs are kept, and new ones are made only for element slots; the saved ref of every key that is not an element slot is unchanged |
| Components.ComponentRegistry.ConnectChild | src/ThreeComponent.tsx:41-67 | for an element, the slot's bound ref is made only when missing and then reused; the child is cloned with it, and the ref it carried is saved; every other child is returned unchanged and nothing is recorded |
| Components.ComponentRegistry.OnRef | src/ThreeComponent.tsx:69-81 | the saved ref, when there is one, is forwarded to; a component is recorded under the key and mounted; a null for a registered key unmounts the stored component and deletes the key; a null for an unregistered key changes nothing |
| Components.ComponentRegistry.Iterate | src/ThreeComponent.tsx:83-93 | every registered component once, in insertion order, or in exactly the reverse order |
| SceneGraph.ShouldComponentUpdate | src/ThreeComponent.tsx:25-27 | whether the component re-renders for the next props |
| SceneGraph.ShouldComponentUpdateOnlyOnChildren | src/ThreeComponent.tsx:25-27 | over whole props: with the same `children` the answer is false whatever the other props are, with different `children` it is true, and every next props with the same `children` gets the same answer |
| SceneGraph.OctreeAdd | src/Internal/Raycaster.tsx:35-49 | an added node is tracked at once but not searchable until the next refresh |
| SceneGraph.OctreeRemove | src/Internal/Raycaster.tsx:67-69 | a removed node is no longer tracked, pending or searchable |
| SceneGraph.OctreeUpdate | src/Internal/Raycaster.tsx:73-78 | after a refresh nothing is pending and exactly the tracked nodes are searchable |
| SceneGraph.AddThenRemove | src/Internal/Raycaster.tsx:62-69 | subscribing an untracked node and unsubscribing it restores the index |
| SceneGraph.AddedSearchableAfterUpdate | src/Internal/Raycaster.tsx:38-41 | an added node is not searchable until the next refresh, and is searchable after it |
| SceneGraph.UpdateIdempotent | src/Internal/Raycaster.tsx:77 | refreshing twice is refreshing once |
| SceneGraph.GetIterable | src/Internal/Raycaster.tsx:178-188 | nothing only for an absent target; any array, even an empty one, as it is; the values of a map or a set, in order; the elements of any other iterable |
| SceneGraph.Convert | src/Internal/Raycaster.tsx:171-176 | the intersection is kept, and the component is the hit node's back-reference when it has one, else the fallback |
| SceneGraph.ConvertSeq | src/Internal/Raycaster.tsx:145-149 | every intersection converted, in library order |
| SceneGraph.ElementsHitsAppend | src/Internal/Raycaster.tsx:151-169 | the hits of two collections in a row are the hits of the first, then those of the second |
| SceneGraph.ElementsHitsResolve | src/Internal/Raycaster.tsx:151-176 | the j-th hit of the member at position i sits right after the hits of the members before it and is that member's j-th hit; it resolves to its node's back-reference, or else to that same member's fallback: the member itself when it is a component, none when it is a native node |
| SceneGraph.EmptyArrayYieldsNothing | src/Internal/Raycaster.tsx:116-118 | an empty array target yields no hit and never searches the index |
| SceneGraph.SingleTargetShape | src/Internal/Raycaster.tsx:105-114 | a single node with `recursive` omitted yields its first intersection converted, or null when there is none; with `recursive` given, even as false, every intersection in library order, with no fallback |
| SceneGraph.SingleComponentShape | src/Internal/Raycaster.tsx:95-104 | a single component with `recursive` omitted yields its node's first intersection, or null, and a hit on a node without a back-reference resolves to that component; with `recursive` given, every intersection in library order with no fallback, so such a hit resolves to no component |
| SceneGraph.Raycaster.constructor | src/Internal/Raycaster.tsx:32-52 | no scene and an empty index |
| SceneGraph.Raycaster.Initialize | src/Internal/Raycaster.tsx:53-55 | the scene is recorded |
| SceneGraph.Raycaster.Dispose | src/Internal/Raycaster.tsx:56-60 | the scene is dropped |
| SceneGraph.Raycaster.Subscribe | src/Internal/Raycaster.tsx:62-66 | every node but the scene's own is added to the index |
| SceneGraph.Raycaster.Unsubscribe | src/Internal/Raycaster.tsx:67-69 | the node is removed from the index |
| SceneGraph.Raycaster.OnPostRender | src/Internal/Raycaster.tsx:73-78 | the index is refreshed |
| SceneGraph.Raycaster.ConvertAll | src/Internal/Raycaster.tsx:145-149 | every intersection converted with the given fallback, in library order; `createIntersectionIterator` passes none |
| SceneGraph.Raycaster.RaycastAll | src/Internal/Raycaster.tsx:136-143 | no candidates yield nothing; otherwise all candidates are intersected at once and every hit converted without a fallback |
| SceneGraph.Raycaster.MapToIntersections | src/Internal/Raycaster.tsx:151-169 | for each member in collection order, with `[key, value]` pairs unwrapped to the value, that member's hits in library order; a component member is the fallback of its own hits |
| SceneGraph.Raycaster.Raycast | src/Internal/Raycaster.tsx:88-134 | without a camera, undefined; otherwise the answer for the camera ray, the searchable nodes and the target's shape; the index is only read |
| SceneGraph.ThreeObject.constructor | src/ThreeObject.tsx:36-43 | the props and the tracker are recorded, the component is hit-test visible, it has no node and no registered children |
| SceneGraph.ThreeObject.EnableInteraction | src/ThreeObject.tsx:195-202 | only a node without a back-reference gets this component's back-reference and is subscribed; any other call changes nothing |
| SceneGraph.ThreeObject.DisableInteraction | src/ThreeObject.tsx:203-210 | only a node with a back-reference loses it and is unsubscribed; any other call changes nothing |
| SceneGraph.ThreeObject.Resync | src/ThreeObject.tsx:50-54 | the node is subscribed exactly when the component is hit-test visible and visible; no other node's subscription changes |
| SceneGraph.ThreeObject.SetIsHitTestVisible | src/ThreeObject.tsx:47-56 | the value is stored; setting the current value changes nothing, and a change leaves the node subscribed exactly when it is hit-test visible and visible; the index invariant is kept |
| SceneGraph.ThreeObject.SetIsVisible | src/ThreeObject.tsx:65-74 | without a node, or with the current value, nothing changes; otherwise the node's visibility changes and it is then subscribed exactly when it is hit-test visible and visible; the index invariant is kept |
| SceneGraph.ThreeObject.AssignNodeFields | src/ThreeObject.tsx:170-179 | the name is overwritten, the group set non-recursively, and the position and rotation copied only when given |
| SceneGraph.ThreeObject.AssignVisibility | src/ThreeObject.tsx:181-187 | the hit-test flag and the visibility go through their setters, only when defined |
| SceneGraph.ThreeObject.UpdateObjectProperties | src/ThreeObject.tsx:168-193 | without a node nothing changes; with one, the name and group are always written, the position, rotation, hit-test flag and visibility only when defined, and the render order only when truthy (0 is ignored); the index invariant is kept |
| SceneGraph.ThreeObject.SetObject3D | src/ThreeObject.tsx:80-91 | a previous, different node is unsubscribed and loses its back-reference; the new node gets the props and is subscribed exactly when it is hit-test visible and visible; every other node keeps its index membership |
| SceneGraph.ThreeObject.ComponentWillUnmount | src/ThreeObject.tsx:94-99 | the node is unsubscribed and dropped, so `isVisible` then reads false |
| SceneGraph.ThreeObject.ComponentWillReceiveProps | src/ThreeObject.tsx:100-102 | the current props, not the incoming ones, are applied again, with every effect `updateObjectProperties` has: without a node nothing changes; with one, the name and group are written, the position, rotation, hit-test flag and visibility only when defined, and the render order only when truthy; no other node's subscription changes and the index invariant is kept |
| SceneGraph.ThreeObject.ComponentMounted | src/ThreeObject.tsx:125-134 | when both nodes exist, the child's node is added under this one; a child without a node draws a warning and nothing changes |
| SceneGraph.ThreeObject.ComponentUnmounted | src/ThreeObject.tsx:135-144 | when both nodes exist, the first occurrence of the child's node is cut out of this one's children and the other children keep their order; a child without a node draws a warning and nothing changes |
| SceneGraph.ThreeObject.OnRef | src/ThreeComponent.tsx:69-81 | the saved ref is forwarded to; a component is recorded under the key, which joins the keys if new, and its node is added under this node; a null for a registered key deletes it and the first occurrence of the removed child's node is cut out of this node's children, the others keeping their order; a null for an unregistered key changes nothing |
| SceneGraph.ThreeObject.Update | src/ThreeObject.tsx:114-123 | the components whose `OnUpdate` runs are the pre-order walk of the tree: none without a node, otherwise this one, then each registered child's walk in key order |
| SceneGraph.ThreeObject.UpdateChildren | src/ThreeObject.tsx:119-121 | the walks of the registered children, one after another in key order |
| SceneGraph.ThreePolygon.constructor | src/ThreePolygon.tsx:19-28 | no mesh, geometry or material |
| SceneGraph.ThreePolygon.UpdateGeometry | src/ThreePolygon.tsx:36-40 | the stored geometry goes onto the mesh, when there is one |
| SceneGraph.ThreePolygon.UpdateMaterial | src/ThreePolygon.tsx:50-54 | the stored material goes onto the mesh, an absent one as an empty array |
| SceneGraph.ThreePolygon.SetGeometry | src/ThreePolygon.tsx:32-35 | the geometry is stored, so the getter returns it, and it is mirrored on the mesh when there is one; the material is untouched |
| SceneGraph.ThreePolygon.SetMaterial | src/ThreePolygon.tsx:46-49 | the material is stored and mirrored on the mesh (absent as `[]`) when there is one; the geometry is untouched |
| SceneGraph.ThreePolygon.ComponentWillMount | src/ThreePolygon.tsx:56-62 | a new mesh becomes the node, the previous node is unsubscribed, and the mesh carries the geometry and material stored before mounting; the mesh's node gets the name, group, position, rotation, visibility and truthy render order of the props over the node's defaults, and the hit-test flag of the props if given, so its subscription follows them; every other node keeps its index membership |
| SceneGraph.ThreeScene.constructor | src/ThreeScene.tsx:40-51 | the component reports to the scene's own raycaster, which serves this scene; time starts at 0 |
| SceneGraph.ThreeScene.UpdateCamera | src/ThreeScene.tsx:70-79 | a camera prop always wins; otherwise an existing camera is kept; otherwise a default one is made and a warning issued; there is a camera afterwards |
| SceneGraph.ThreeScene.ComponentWillMount | src/ThreeScene.tsx:95-100 | a new scene node becomes the component's node and the raycaster's root, which is never in the index; the node gets the name, group, position, rotation, visibility and truthy render order of the props over the node's defaults, and the hit-test flag of the props if given; every other node keeps its index membership; then the camera rule is applied |
| SceneGraph.ThreeScene.ComponentDidUpdate | src/ThreeScene.tsx:101-103 | the camera rule is applied again: the prop wins, then an existing camera, else a new default camera with the given id and a warning |
| SceneGraph.ThreeScene.ComponentWillUnmount | src/ThreeScene.tsx:104-117 | the base unmount runs first, so a subscribed node is removed from the index exactly as `OctreeRemove` says and every other node keeps its membership; then the raycaster lets go of the scene, and the camera and scene node are dropped |
| SceneGraph.ThreeScene.OnBeforeUpdate | src/ThreeScene.tsx:134-138 | the raycaster's per-frame hook runs exactly when the timestamp is truthy |
| SceneGraph.ThreeScene.OnUpdate | src/ThreeScene.tsx:138-143 | for a truthy timestamp, the frame time moves to it and the whole tree is updated in pre-order; for 0 or none nothing happens |
| SceneGraph.ThreeScene.OnPostRender | src/ThreeScene.tsx:147-149 | the raycaster refreshes its index, so every tracked node becomes searchable |
| Timing.Deltas | src/Internal/TimeInfo.tsx:17-20 | one step per timestamp set |
| Timing.DeltasTelescope | src/Internal/TimeInfo.tsx:17-20 | the steps add up to the latest timestamp minus the start |
| Timing.TimeInfo.constructor | src/Internal/TimeInfo.tsx:8-11 | `current` and `delta` start at 0 |
| Timing.TimeInfo.GetCurrent | src/Internal/TimeInfo.tsx:14-16 | the last timestamp set (0 at first); nothing changes |
| Timing.TimeInfo.GetDelta | src/Internal/TimeInfo.tsx:23-25 | the step from the previous timestamp to the last one (0 at first); nothing changes |
| Timing.TimeInfo.SetCurrent | src/Internal/TimeInfo.tsx:17-20 | `delta` is the new value minus the old `current`, and `current` is the new value |
| Timing.CurrentIsSumOfDeltas | src/Internal/TimeInfo.tsx:17-20 | starting from 0, `current` is the sum of every `delta` produced so far |
| Renderer.Hash | src/ThreeRenderer.tsx:360 | the cache key `<scene id>,<camera id>`; `HashInjective` states that it tells pairs apart |
| Renderer.HashInjective | src/ThreeRenderer.tsx:360 | the keys of two (scene id, camera id) pairs are equal exactly when the pairs are |
| Renderer.RenderListCache.constructor | src/ThreeRenderer.tsx:357 | the cache starts empty |
| Renderer.RenderListCache.Get | src/ThreeRenderer.tsx:359-369 | a cached pair's list is returned and nothing changes; a new pair gets a fresh, empty list, cached before it is returned; no list is cached under two keys |
| Renderer.RenderListCache.Dispose | src/ThreeRenderer.tsx:370-372 | the cache is emptied |
| Renderer.DistinctPairsDistinctLists | src/ThreeRenderer.tsx:363-366 | different pairs in the cache never share a list |
| Renderer.GetTwice | src/ThreeRenderer.tsx:359-369 | asking twice for one pair gives the identical list, and only that pair is cached |
| Renderer.GetAfterDispose | src/ThreeRenderer.tsx:370-372 | after `dispose`, the next `get` for any pair makes a new list |
| Renderer.FrameSteps | src/ThreeRenderer.tsx:221-244 | without a renderer, no call; with one, the clear comes first; without a scene, only the clear; the interaction tick only when there is a scene and the loop is on; the update only with a scene |
| Renderer.FrameOrder | src/ThreeRenderer.tsx:226-241 | with a scene, after the clear the lifecycle hooks run once each in the order before-update, update, pre-render, draw, post-render, with the interaction tick between the first two when the loop is on |
| Renderer.FrameHooks | src/ThreeRenderer.tsx:227-241 | the clear and the ticks drop out of a frame's calls, and the other calls keep their order |
| Renderer.ThreeRenderer.constructor | src/ThreeRenderer.tsx:51-55 | the render loop is on unless the prop says otherwise; no renderer, scene, timer or frame |
| Renderer.ThreeRenderer.RenderScene | src/ThreeRenderer.tsx:221-244 | the calls are those of a frame for the current renderer, scene and loop setting; with both a renderer and a scene, a truthy timestamp moves the frame time to it and the index is refreshed; otherwise the frame time is unchanged; without a renderer the index is unchanged too; the raycaster's link to its scene is never touched |
| Renderer.ThreeRenderer.RequestRender | src/ThreeRenderer.tsx:245-251 | a render timer is set only when none is pending and the loop is off; otherwise nothing changes |
| Renderer.ThreeRenderer.CancelRequestRender | src/ThreeRenderer.tsx:252-257 | no render timer is pending afterwards |
| Renderer.ThreeRenderer.RenderCallback | src/ThreeRenderer.tsx:258-264 | the timer is forgotten, then a frame is drawn without a timestamp, so the frame time does not move; with a renderer and a scene the index is refreshed, without a renderer it is unchanged |
| Renderer.ThreeRenderer.ContinueRenderLoop | src/ThreeRenderer.tsx:272-274 | the next animation frame is requested |
| Renderer.ThreeRenderer.StopRenderLoop | src/ThreeRenderer.tsx:275-280 | no animation frame is pending afterwards |
| Renderer.ThreeRenderer.RenderLoop | src/ThreeRenderer.tsx:265-271 | while the loop is on and running, the next frame is requested first; the frame is then drawn with the timestamp, which moves the frame time when it is non-zero; with a renderer and a scene the index is refreshed, without a renderer the time and index are unchanged |
| Renderer.ThreeRenderer.InitializeRendering | src/ThreeRenderer.tsx:199-220 | a first frame with timestamp 0 only when nothing is scheduled; with the loop on, no render timer, a running loop and no interaction hook; with it off, no loop and interaction requesting renders; the first frame refreshes the index, and the frame time never moves |
| Renderer.ThreeRenderer.InitializeRenderer | src/ThreeRenderer.tsx:299-307 | with WebGL, a renderer with an empty list cache is made and the first frame (timestamp 0) is drawn unless a timer or frame is pending, refreshing the index; with the loop on no render timer is left, a loop is running and no interaction hook is set; with it off, no loop and interaction requesting renders; without it, no call is made and the list cache, the tokens, the handle counter, the interaction hook, the frame time and the index are unchanged |
| Renderer.ThreeRenderer.UninitializeRenderer | src/ThreeRenderer.tsx:308-319 | every pending measure, render timer and frame is cancelled, and the renderer is dropped |
| Renderer.ThreeRenderer.Refresh | src/ThreeRenderer.tsx:91-95 | with the loop off, a pending render is kept or a new one is requested with the next handle; with it on, neither the render token nor the handle counter changes |
| Renderer.ThreeRenderer.ComponentMounted | src/ThreeRenderer.tsx:180-186 | the mounted child becomes the scene that frames draw |
| Renderer.ThreeRenderer.ComponentUnmounted | src/ThreeRenderer.tsx:187-195 | the scene is dropped |
| Renderer.ThreeRenderer.ComponentWillUnmount | src/ThreeRenderer.tsx:117-129 | the renderer is torn down and the scene dropped |
| Renderer.RunLifecycle | src/ThreeRenderer.tsx:227-241 | the scene's hooks run around the draw: before-update without a timestamp, then the update with it, then post-render, which leaves every tracked node searchable; only the raycaster's index changes, never its scene |
| Renderer.NoFrameAfterUnmount | src/ThreeRenderer.tsx:117-129 | once the renderer is unmounted, a frame makes no call at all |
| Native.Object3D.constructor | src/ThreeScene.tsx:96 | a new node has the given id, no children, no back-reference, no group, the name `""`, render order 0, the origin position and the identity rotation, and is visible |
| Native.Object3D.Add | src/ThreeObject.tsx:129 | the child goes last among the children; adding a node to itself is refused |
| Native.Object3D.Remove | src/ThreeObject.tsx:139 | the first occurrence of the child leaves the children, and the others keep their order |
| Native.Mesh.constructor | src/ThreePolygon.tsx:57 | a new mesh has a new node with the given id and the node defaults, the default geometry and the default material |
| Native.Camera.constructor | src/ThreeScene.tsx:76 | a new camera has the given id |

## Left out

- three.js internals are not part of this model: octree balancing and search, the
  ray from a camera, `intersectObject(s)`, renderer creation, drawing and disposal,
  and the vector math of `setScale` (`src/ThreeScene.tsx:86-93`). The library's
  calls are parameters. `add` and `remove` act only on `children`. Re-parenting a
  node that already has a parent is not modelled.
- React plumbing is left out: `React.Children.map`, `cloneElement` and its prop
  merge, the JSX `render()` outputs, and when React calls the lifecycle methods.
  `ConnectChildren` models the key and ref bookkeeping and which children pass
  through.
- DOM, WebGL and timers are left out: canvas context detection, `updateRendererSize`
  and `onResize`, `invalidateMeasure` and its measure timer, `setupRenderer`, the
  renderer's `componentWillMount`, `componentWillReceiveProps` and
  `componentDidUpdate`, `connectInteraction`, and `takeScreenshot`. Real timers and
  animation frames are handles; `InitializeRenderer` takes WebGL support as a
  parameter.
- `InteractionManager`, `ThreeInteraction` and `ThreeInteractionListener`: the
  gesture handling is external or pure forwarding. The interaction tick appears
  only as a step of a frame, and `onInteraction` only as which hook is set.
- The renderer's own child registry and its `onRef` routing (it is a
  `ThreeComponent` too) are not modelled: `ThreeRenderer.ComponentMounted` and
  `ThreeRenderer.ComponentUnmounted` are called directly with the scene.
- `SceneInfo` is not a separate class: its camera and raycaster getters delegate
  to the scene, so the raycaster reads the camera through its scene.
- Calls with no effect are recorded, not modelled as methods. These are the
  raycaster's `OnUpdate` and `OnPreRender`, the scene's `OnPreRender`, and the
  polygon's `OnUpdate`. `ThreeObject.Update` records which component's `OnUpdate`
  ran.
- Generators are eager sequences. Laziness, and a consumer stopping early, are not
  modelled.
- Intersections and render items are values: the object spread in
  `convertIntersection` and the reuse of one render-item object across frames are
  not modelled as aliasing. `Push` writes the new item into the slot.
- `Object.assign` copies the given position or rotation as a whole value.
- Floating point: depths, timestamps and distances are `real`; the comparators'
  subtractions of ids and orders are exact.
- The ids of a new camera, scene node or mesh are parameters: three.js hands out
  ids from a global counter that is not modelled.
- The collection path that maps a non-empty array to its members' nodes
  (`src/Internal/Raycaster.tsx:127`) cannot be reached. `getIterable` returns every
  array, so an array never gets there, and every other non-absent target is
  iterable in this model.
- The sort of `Array.prototype.sort` is an insertion sort. Stability and the
  engine's own algorithm are not modelled.
- RenderLists.CompareMatchesKey: states the order only for comparable items. The
  source's group test compares the raw values, while its subtraction folds an
  absent group and 0 into `MIN_SAFE_INTEGER`. So an absent group against 0
  compares equal without looking at later keys. The program key is also skipped
  when only one item has a program. `setRenderOrderGroup` never stores 0.
- RenderLists.SortSorted: sortedness is proved only for buckets of pairwise
  comparable items, for the reason above; the permutation holds for every bucket.
- SceneGraph.ThreeObject.Update: requires the registered components to form a
  finite tree (`Ranked`). The source relies on this without checking it, and the
  model takes it as a precondition instead of maintaining it through `OnRef`.
- SceneGraph.ThreeObject.SetObject3D: requires a new node without a back-reference
  and not in the index. Both callers, `src/ThreePolygon.tsx:57-58` and
  `src/ThreeScene.tsx:96-97`, pass a node they have just created. The contract says
  nothing about the previous node when the same node is set again.
- SceneGraph.Raycaster.Subscribe: requires a scene, since the source reads the
  scene's node and fails without one. `Raycaster.Raycast` requires one for the same
  reason: it reads the camera through the scene.
- Renderer.ThreeRenderer.UninitializeRenderer: dropping the renderer stands for its
  `dispose()`. The cache it empties is discarded along with the renderer.
