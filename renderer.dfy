/**
 * The renderer component: the render-list cache it installs on the WebGL
 * renderer, the fixed sequence of calls that draws one frame, and the two
 * ways frames get scheduled (a request timer, or the animation-frame loop).
 * Timers and animation frames are handles (`Option<nat>`); the host calls
 * `RenderCallback` or `RenderLoop` when one fires.
 */
module Renderer {
  import opened Wrappers
  import Components
  import RenderLists
  import SceneGraph

  // ---------------------------------------------------------------------------
  // The render-list cache
  // ---------------------------------------------------------------------------

  /** The cache key `${sceneId},${cameraId}`. */
  function Hash(sceneId: nat, cameraId: nat): string
  {
    Components.Decimal(sceneId) + "," + Components.Decimal(cameraId)
  }

  predicate IsDigit(ch: char)
  {
    '0' <= ch <= '9'
  }

  lemma {:induction false} DecimalDigits(n: nat)
    ensures forall i :: 0 <= i < |Components.Decimal(n)| ==> IsDigit(Components.Decimal(n)[i])
  {
    if n >= 10 {
      DecimalDigits(n / 10);
    }
  }

  /** Two pairs share a key exactly when they are the same pair. */
  lemma HashInjective(s1: nat, c1: nat, s2: nat, c2: nat)
    ensures Hash(s1, c1) == Hash(s2, c2) <==> s1 == s2 && c1 == c2
  {
    if Hash(s1, c1) == Hash(s2, c2) {
      var a, b := Components.Decimal(s1), Components.Decimal(s2);
      var h := Hash(s1, c1);
      DecimalDigits(s1);
      DecimalDigits(s2);
      assert h[|a|] == ',' && Hash(s2, c2)[|b|] == ',';
      if |a| < |b| {
        assert false;
      } else if |b| < |a| {
        assert false;
      }
      assert a == h[..|a|] == b;
      Components.DecimalInjective(s1, s2);
      assert Components.Decimal(c1) == h[|a| + 1..] == Components.Decimal(c2);
      Components.DecimalInjective(c1, c2);
    }
  }

  /** The `lists` object the patched `renderLists.get` and `renderLists.dispose` close over. */
  class RenderListCache {
    var lists: map<string, RenderLists.WebGLRenderList>

    /** No list is cached under two keys. */
    ghost predicate Valid()
      reads this
    {
      forall h1, h2 :: h1 in lists && h2 in lists && h1 != h2 ==> lists[h1] != lists[h2]
    }

    constructor ()
      ensures Valid() && lists == map[]
    {
      lists := map[];
    }

    /**
     * `renderLists.get(scene, camera)`: the list cached for the pair, or a new
     * empty one, cached before it is returned.
     */
    method Get(sceneId: nat, cameraId: nat) returns (list: RenderLists.WebGLRenderList)
      requires Valid()
      modifies this`lists
      ensures Valid()
      ensures Hash(sceneId, cameraId) in lists && lists[Hash(sceneId, cameraId)] == list
      ensures Hash(sceneId, cameraId) in old(lists) ==> list == old(lists)[Hash(sceneId, cameraId)] && lists == old(lists)
      ensures Hash(sceneId, cameraId) !in old(lists) ==>
        && fresh(list) && list.Valid()
        && list.opaqueItems == [] && list.transparentItems == [] && list.renderItemsIndex == 0
        && lists == old(lists)[Hash(sceneId, cameraId) := list]
    {
      var hash := Hash(sceneId, cameraId);
      if hash in lists {
        list := lists[hash];
      } else {
        list := new RenderLists.WebGLRenderList();
        lists := lists[hash := list];
      }
    }

    /** `renderLists.dispose()`: the cache is emptied. */
    method Dispose()
      modifies this`lists
      ensures Valid() && lists == map[]
    {
      lists := map[];
    }
  }

  /** Two different (scene, camera) pairs in the cache never share a list. */
  lemma DistinctPairsDistinctLists(cache: RenderListCache, s1: nat, c1: nat, s2: nat, c2: nat)
    requires cache.Valid()
    requires Hash(s1, c1) in cache.lists && Hash(s2, c2) in cache.lists
    requires s1 != s2 || c1 != c2
    ensures cache.lists[Hash(s1, c1)] != cache.lists[Hash(s2, c2)]
  {
    HashInjective(s1, c1, s2, c2);
  }

  /** Asking twice for the same pair hands back the identical list and caches nothing more. */
  method GetTwice(cache: RenderListCache, sceneId: nat, cameraId: nat)
    returns (first: RenderLists.WebGLRenderList, second: RenderLists.WebGLRenderList)
    requires cache.Valid()
    modifies cache`lists
    ensures first == second
    ensures cache.lists == old(cache.lists)[Hash(sceneId, cameraId) := first]
  {
    first := cache.Get(sceneId, cameraId);
    second := cache.Get(sceneId, cameraId);
  }

  /** After `dispose`, the next `get` for any pair makes a new list. */
  method GetAfterDispose(cache: RenderListCache, sceneId: nat, cameraId: nat) returns (list: RenderLists.WebGLRenderList)
    requires cache.Valid()
    modifies cache`lists
    ensures fresh(list) && cache.lists == map[Hash(sceneId, cameraId) := list]
  {
    cache.Dispose();
    list := cache.Get(sceneId, cameraId);
  }

  // ---------------------------------------------------------------------------
  // One frame
  // ---------------------------------------------------------------------------

  /** The calls `renderScene` makes, in the order it makes them. */
  datatype Step = Clear | BeforeUpdate | InteractionUpdate | Update(timestamp: Option<real>) | PreRender | Draw | PostRender

  /** What `onInteraction` is set to: nothing, or `requestRender`. */
  datatype InteractionHook = NoHook | RequestRenderHook

  /**
   * The calls `renderScene` makes: without a renderer nothing, without
   * a scene only a clear; otherwise the lifecycle hooks around the draw, with
   * the interaction tick only while the render loop is on.
   */
  function FrameSteps(hasRenderer: bool, hasScene: bool, renderLoop: bool, timestamp: Option<real>): (r: seq<Step>)
    ensures !hasRenderer ==> r == []
    ensures hasRenderer ==> |r| >= 1 && r[0] == Clear
    ensures hasRenderer && !hasScene ==> r == [Clear]
    ensures InteractionUpdate in r <==> hasRenderer && hasScene && renderLoop
    ensures Update(timestamp) in r <==> hasRenderer && hasScene
  {
    if !hasRenderer then []
    else if !hasScene then [Clear]
    else [Clear, BeforeUpdate] + (if renderLoop then [InteractionUpdate] else []) + [Update(timestamp), PreRender, Draw, PostRender]
  }

  /** The lifecycle calls of a frame: every step but the clear and the interaction tick. */
  function Hooks(steps: seq<Step>): (r: seq<Step>)
    ensures |r| <= |steps|
  {
    if steps == [] then []
    else if steps[0] == Clear || steps[0] == InteractionUpdate then Hooks(steps[1..])
    else [steps[0]] + Hooks(steps[1..])
  }

  lemma {:induction false} HooksKeeps(s: seq<Step>)
    requires forall i :: 0 <= i < |s| ==> s[i] != Clear && s[i] != InteractionUpdate
    ensures Hooks(s) == s
  {
    if s != [] {
      HooksKeeps(s[1..]);
      assert s == [s[0]] + s[1..];
    }
  }

  lemma {:induction false} HooksAppend(a: seq<Step>, b: seq<Step>)
    ensures Hooks(a + b) == Hooks(a) + Hooks(b)
  {
    if a == [] {
      assert a + b == b;
    } else {
      assert (a + b)[0] == a[0] && (a + b)[1..] == a[1..] + b;
      HooksAppend(a[1..], b);
      if a[0] != Clear && a[0] != InteractionUpdate {
        assert Hooks(a + b) == [a[0]] + (Hooks(a[1..]) + Hooks(b));
      }
    }
  }

  /**
   * With a scene, a frame starts with the clear, the lifecycle hooks run
   * exactly once each in the fixed order whether or not the loop is on, and
   * the interaction tick, when there is one, comes between the first hook and
   * the update.
   */
  lemma {:induction false} FrameOrder(renderLoop: bool, timestamp: Option<real>)
    ensures var r := FrameSteps(true, true, renderLoop, timestamp);
      && r[0] == Clear
      && Hooks(r) == [BeforeUpdate, Update(timestamp), PreRender, Draw, PostRender]
      && (renderLoop ==> r[2] == InteractionUpdate && r[1] == BeforeUpdate && r[3] == Update(timestamp))
  {
    var tick := if renderLoop then [InteractionUpdate] else [];
    FrameHooks(BeforeUpdate, tick, [Update(timestamp), PreRender, Draw, PostRender]);
  }

  /** The clear and the ticks drop out of a frame's calls; the other calls stay, in order. */
  lemma {:induction false} FrameHooks(first: Step, tick: seq<Step>, tail: seq<Step>)
    requires first != Clear && first != InteractionUpdate
    requires forall i :: 0 <= i < |tick| ==> tick[i] == InteractionUpdate
    requires forall i :: 0 <= i < |tail| ==> tail[i] != Clear && tail[i] != InteractionUpdate
    ensures Hooks([Clear, first] + tick + tail) == [first] + tail
  {
    assert [Clear, first] + tick + tail == [Clear] + ([first] + (tick + tail));
    HooksAppend([Clear], [first] + (tick + tail));
    HooksKeeps([first]);
    HooksAppend([first], tick + tail);
    HooksDrop(tick);
    HooksAppend(tick, tail);
    HooksKeeps(tail);
    assert Hooks([Clear]) == [] by {
      assert [Clear][1..] == [];
    }
  }

  lemma {:induction false} HooksDrop(tick: seq<Step>)
    requires forall i :: 0 <= i < |tick| ==> tick[i] == InteractionUpdate
    ensures Hooks(tick) == []
  {
    if tick != [] {
      HooksDrop(tick[1..]);
    }
  }

  // ---------------------------------------------------------------------------
  // The renderer component
  // ---------------------------------------------------------------------------

  class ThreeRenderer {
    /**
     * `m_renderer`, kept as the one part of the WebGL renderer this model
     * has: the render-list cache its patched `renderLists` serves. `null`
     * while there is no renderer.
     */
    var renderLists: RenderListCache?
    /** The mounted scene (`m_scene`, reached through `m_renderLifecycle`). */
    var scene: SceneGraph.ThreeScene?
    /** `props.enableRenderLoop`, true by default. */
    var enableRenderLoop: bool
    /** `m_requestRenderToken`: a pending `setTimeout`. */
    var requestRenderToken: Option<nat>
    /** `m_requestAnimationFrameToken`: a pending animation frame. */
    var animationFrameToken: Option<nat>
    /** `m_requestMeasureToken`: a pending re-measure. */
    var requestMeasureToken: Option<nat>
    /** The interaction manager's `onInteraction` callback. */
    var onInteraction: InteractionHook
    /** The handle the host gives the next timer or frame; handles are never 0, so a pending one is truthy. */
    var nextHandle: nat

    constructor (enableRenderLoop: Option<bool>)
      ensures renderLists == null && scene == null
      ensures this.enableRenderLoop == enableRenderLoop.GetOr(true)
      ensures requestRenderToken == None && animationFrameToken == None && requestMeasureToken == None
      ensures onInteraction == NoHook
    {
      renderLists := null;
      scene := null;
      this.enableRenderLoop := enableRenderLoop.GetOr(true);
      requestRenderToken := None;
      animationFrameToken := None;
      requestMeasureToken := None;
      onInteraction := NoHook;
      nextHandle := 1;
    }

    /** What the scene needs for a frame: its time well formed and its tree ranked. */
    ghost predicate SceneReady()
      reads this`scene, if scene == null then {} else {scene.time}
      reads if scene == null then {} else {scene.base}
      reads if scene == null then {} else scene.base.nodes
      reads if scene == null then {} else scene.base.regs
    {
      scene != null ==> scene.time.Valid() && scene.base.Ranked()
    }

    /** Whether a renderer exists. */
    function HasRenderer(): bool
      reads this`renderLists
    {
      renderLists != null
    }

    /**
     * `renderScene(timestamp)`: clear; then, with a scene, the lifecycle hooks
     * around the draw. `OnBeforeUpdate` is called without a timestamp, and the
     * post-render hook leaves every subscribed node searchable.
     */
    method RenderScene(timestamp: Option<real>) returns (steps: seq<Step>)
      requires SceneReady()
      modifies if scene == null then {} else {scene.time}
      modifies if scene == null then {} else {scene.raycaster}`octree
      ensures steps == FrameSteps(HasRenderer(), scene != null, enableRenderLoop, timestamp)
      ensures SceneReady()
      ensures HasRenderer() && scene != null ==>
        && scene.raycaster.octree.pending == {}
        && scene.raycaster.octree.indexed == old(scene.raycaster.octree.Tracked())
      ensures HasRenderer() && scene != null && SceneGraph.TruthyReal(timestamp) ==>
        scene.time.current == timestamp.value && scene.time.history == old(scene.time.history) + [timestamp.value]
      ensures (!HasRenderer() || !SceneGraph.TruthyReal(timestamp)) && scene != null ==>
        scene.time.history == old(scene.time.history) && scene.time.current == old(scene.time.current)
      ensures !HasRenderer() && scene != null ==> scene.raycaster.octree == old(scene.raycaster.octree)
      ensures scene != null ==> scene.raycaster.scene == old(scene.raycaster.scene)
    {
      steps := [];
      if renderLists != null {
        steps := [Clear];
        if scene != null {
          RunLifecycle(scene, timestamp);
          steps := steps + [BeforeUpdate] + (if enableRenderLoop then [InteractionUpdate] else []);
          steps := steps + [Update(timestamp), PreRender, Draw, PostRender];
        }
      }
    }

    /** `requestRender()`: a render timer is set only when none is pending and the loop is off. */
    method RequestRender()
      modifies this`requestRenderToken, this`nextHandle
      ensures old(requestRenderToken).Some? || enableRenderLoop ==>
        requestRenderToken == old(requestRenderToken) && nextHandle == old(nextHandle)
      ensures old(requestRenderToken).None? && !enableRenderLoop ==>
        requestRenderToken == Some(old(nextHandle)) && nextHandle == old(nextHandle) + 1
    {
      if requestRenderToken.Some? || enableRenderLoop {
        return;
      }
      requestRenderToken := Some(nextHandle);
      nextHandle := nextHandle + 1;
    }

    /** `cancelRequestRender()`: any pending render timer is cleared. */
    method CancelRequestRender()
      modifies this`requestRenderToken
      ensures requestRenderToken == None
    {
      if requestRenderToken.Some? {
        requestRenderToken := None;
      }
    }

    /** `renderCallback()`: the fired timer is forgotten, then a frame is drawn without a timestamp. */
    method RenderCallback() returns (steps: seq<Step>)
      requires SceneReady()
      modifies this`requestRenderToken, if scene == null then {} else {scene.time}
      modifies if scene == null then {} else {scene.raycaster}`octree
      ensures requestRenderToken == None
      ensures steps == FrameSteps(HasRenderer(), scene != null, enableRenderLoop, None)
      ensures scene != null ==> scene.time.history == old(scene.time.history) && scene.time.current == old(scene.time.current)
      ensures HasRenderer() && scene != null ==> scene.raycaster.octree == SceneGraph.OctreeUpdate(old(scene.raycaster.octree))
      ensures !HasRenderer() && scene != null ==> scene.raycaster.octree == old(scene.raycaster.octree)
    {
      if requestRenderToken.Some? {
        requestRenderToken := None;
      }
      steps := RenderScene(None);
    }

    /** `continueRenderLoop()`: the next animation frame is requested. */
    method ContinueRenderLoop()
      modifies this`animationFrameToken, this`nextHandle
      ensures animationFrameToken == Some(old(nextHandle)) && nextHandle == old(nextHandle) + 1
    {
      animationFrameToken := Some(nextHandle);
      nextHandle := nextHandle + 1;
    }

    /** `stopRenderLoop()`: any pending animation frame is cancelled. */
    method StopRenderLoop()
      modifies this`animationFrameToken
      ensures animationFrameToken == None
    {
      if animationFrameToken.Some? {
        animationFrameToken := None;
      }
    }

    /**
     * `renderLoop(timestamp)`: while the loop is on and running, the next frame
     * is requested first; then this frame is drawn with the timestamp.
     */
    method RenderLoop(timestamp: real) returns (steps: seq<Step>)
      requires SceneReady()
      modifies this`animationFrameToken, this`nextHandle, if scene == null then {} else {scene.time}
      modifies if scene == null then {} else {scene.raycaster}`octree
      ensures old(animationFrameToken).Some? && enableRenderLoop ==> animationFrameToken == Some(old(nextHandle))
      ensures old(animationFrameToken).None? || !enableRenderLoop ==> animationFrameToken == old(animationFrameToken)
      ensures steps == FrameSteps(HasRenderer(), scene != null, enableRenderLoop, Some(timestamp))
      ensures HasRenderer() && scene != null && timestamp != 0.0 ==>
        scene.time.current == timestamp && scene.time.history == old(scene.time.history) + [timestamp]
      ensures (!HasRenderer() || timestamp == 0.0) && scene != null ==>
        scene.time.history == old(scene.time.history) && scene.time.current == old(scene.time.current)
      ensures HasRenderer() && scene != null ==> scene.raycaster.octree == SceneGraph.OctreeUpdate(old(scene.raycaster.octree))
      ensures !HasRenderer() && scene != null ==> scene.raycaster.octree == old(scene.raycaster.octree)
    {
      if animationFrameToken.Some? && enableRenderLoop {
        ContinueRenderLoop();
      }
      steps := RenderScene(Some(timestamp));
    }

    /**
     * `initializeRendering()`: a first frame (timestamp 0, so no update runs)
     * unless something is already scheduled; then, with the loop on, no render
     * timer and a running loop, and with it off, no loop and interaction
     * requesting renders.
     */
    method InitializeRendering() returns (steps: seq<Step>)
      requires SceneReady()
      modifies this`requestRenderToken, this`animationFrameToken, this`nextHandle, this`onInteraction
      modifies if scene == null then {} else {scene.time}
      modifies if scene == null then {} else {scene.raycaster}`octree
      ensures old(animationFrameToken).None? && old(requestRenderToken).None? ==>
        steps == FrameSteps(HasRenderer(), scene != null, enableRenderLoop, Some(0.0))
      ensures old(animationFrameToken).Some? || old(requestRenderToken).Some? ==> steps == []
      ensures scene != null ==> scene.time.history == old(scene.time.history) && scene.time.current == old(scene.time.current)
      ensures old(animationFrameToken).None? && old(requestRenderToken).None? && HasRenderer() && scene != null ==>
        scene.raycaster.octree == SceneGraph.OctreeUpdate(old(scene.raycaster.octree))
      ensures (old(animationFrameToken).Some? || old(requestRenderToken).Some? || !HasRenderer()) && scene != null ==>
        scene.raycaster.octree == old(scene.raycaster.octree)
      ensures enableRenderLoop ==>
        && requestRenderToken == None && animationFrameToken.Some? && onInteraction == NoHook
        && (old(animationFrameToken).Some? ==> animationFrameToken == old(animationFrameToken))
      ensures !enableRenderLoop ==>
        && animationFrameToken == None && onInteraction == RequestRenderHook
        && requestRenderToken == old(requestRenderToken)
    {
      steps := [];
      if animationFrameToken.None? && requestRenderToken.None? {
        steps := RenderScene(Some(0.0));
      }
      if enableRenderLoop {
        onInteraction := NoHook;
        CancelRequestRender();
        if animationFrameToken.None? {
          ContinueRenderLoop();
        }
      } else {
        StopRenderLoop();
        onInteraction := RequestRenderHook;
      }
    }

    /** `initializeRenderer()`: with WebGL available a renderer (and its list cache) is made and rendering starts. */
    method InitializeRenderer(webglSupported: bool) returns (steps: seq<Step>)
      requires SceneReady()
      modifies this`renderLists, this`requestRenderToken, this`animationFrameToken, this`nextHandle
      modifies this`onInteraction, if scene == null then {} else {scene.time}
      modifies if scene == null then {} else {scene.raycaster}`octree
      ensures !webglSupported ==> steps == [] && renderLists == old(renderLists)
      ensures !webglSupported ==>
        && requestRenderToken == old(requestRenderToken) && animationFrameToken == old(animationFrameToken)
        && nextHandle == old(nextHandle) && onInteraction == old(onInteraction)
      ensures !webglSupported && scene != null ==>
        && scene.time.current == old(scene.time.current) && scene.time.delta == old(scene.time.delta)
        && scene.time.history == old(scene.time.history) && scene.raycaster.octree == old(scene.raycaster.octree)
      ensures webglSupported ==> renderLists != null && fresh(renderLists) && renderLists.Valid() && renderLists.lists == map[]
      ensures webglSupported && old(animationFrameToken).None? && old(requestRenderToken).None? ==>
        steps == FrameSteps(true, scene != null, enableRenderLoop, Some(0.0))
      ensures webglSupported && (old(animationFrameToken).Some? || old(requestRenderToken).Some?) ==> steps == []
      ensures webglSupported && scene != null ==>
        scene.time.history == old(scene.time.history) && scene.time.current == old(scene.time.current)
      ensures webglSupported && old(animationFrameToken).None? && old(requestRenderToken).None? && scene != null ==>
        scene.raycaster.octree == SceneGraph.OctreeUpdate(old(scene.raycaster.octree))
      ensures webglSupported && (old(animationFrameToken).Some? || old(requestRenderToken).Some?) && scene != null ==>
        scene.raycaster.octree == old(scene.raycaster.octree)
      ensures webglSupported && enableRenderLoop ==>
        requestRenderToken == None && animationFrameToken.Some? && onInteraction == NoHook
      ensures webglSupported && !enableRenderLoop ==> animationFrameToken == None && onInteraction == RequestRenderHook
    {
      steps := [];
      if webglSupported {
        renderLists := new RenderListCache();
        steps := InitializeRendering();
      }
    }

    /** `uninitializeRenderer()`: every pending timer and frame is cancelled and the renderer dropped. */
    method UninitializeRenderer()
      modifies this`requestMeasureToken, this`requestRenderToken, this`animationFrameToken, this`renderLists
      ensures requestMeasureToken == None && requestRenderToken == None && animationFrameToken == None
      ensures renderLists == null
    {
      if requestMeasureToken.Some? {
        requestMeasureToken := None;
      }
      CancelRequestRender();
      StopRenderLoop();
      if renderLists != null {
        renderLists := null;
      }
    }

    /** `refresh()`: with the loop off, a render is requested. */
    method Refresh()
      modifies this`requestRenderToken, this`nextHandle
      ensures enableRenderLoop || old(requestRenderToken).Some? ==> requestRenderToken == old(requestRenderToken)
      ensures !enableRenderLoop ==>
        requestRenderToken == if old(requestRenderToken).Some? then old(requestRenderToken) else Some(old(nextHandle))
      ensures enableRenderLoop ==> nextHandle == old(nextHandle)
    {
      if !enableRenderLoop {
        RequestRender();
      }
    }

    /** `componentMounted(component)`: the mounted child is the scene the frames are drawn from. */
    method ComponentMounted(component: SceneGraph.ThreeScene?)
      modifies this`scene
      ensures scene == component
    {
      scene := component;
    }

    /** `componentUnmounted(component)`: the scene is dropped. */
    method ComponentUnmounted()
      modifies this`scene
      ensures scene == null
    {
      scene := null;
    }

    /** `componentWillUnmount()`: the renderer is torn down and the scene dropped, so nothing is drawn any more. */
    method ComponentWillUnmount()
      modifies this`requestMeasureToken, this`requestRenderToken, this`animationFrameToken, this`renderLists, this`scene
      ensures requestMeasureToken == None && requestRenderToken == None && animationFrameToken == None
      ensures renderLists == null && scene == null
    {
      UninitializeRenderer();
      scene := null;
    }
  }

  /**
   * The scene's side of a frame: `OnBeforeUpdate()` (without a timestamp),
   * `OnUpdate(timestamp)`, `OnPreRender()` (which does nothing) and, after the
   * draw, `OnPostRender()`.
   */
  method RunLifecycle(scene: SceneGraph.ThreeScene, timestamp: Option<real>)
    requires scene.time.Valid() && scene.base.Ranked()
    modifies scene.time, scene.raycaster`octree
    ensures scene.time.Valid() && scene.base.Ranked()
    ensures scene.raycaster.octree.pending == {}
    ensures scene.raycaster.octree.indexed == old(scene.raycaster.octree.Tracked())
    ensures SceneGraph.TruthyReal(timestamp) ==>
      scene.time.current == timestamp.value && scene.time.history == old(scene.time.history) + [timestamp.value]
    ensures !SceneGraph.TruthyReal(timestamp) ==>
      scene.time.history == old(scene.time.history) && scene.time.current == old(scene.time.current)
  {
    var _ := scene.OnBeforeUpdate(None);
    var _ := scene.OnUpdate(timestamp);
    scene.OnPostRender();
  }

  /** Once the renderer is torn down, a frame does nothing at all. */
  method NoFrameAfterUnmount(r: ThreeRenderer, timestamp: Option<real>) returns (steps: seq<Step>)
    modifies r`requestMeasureToken, r`requestRenderToken, r`animationFrameToken, r`renderLists, r`scene
    ensures steps == []
  {
    r.ComponentWillUnmount();
    steps := r.RenderScene(timestamp);
  }
}
