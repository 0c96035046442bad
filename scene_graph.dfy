/**
 * The declarative scene graph and its hit-test index: components that own a
 * native node and keep it in step with their properties, the polygon and scene
 * components, and the raycaster that indexes hit-testable nodes and answers
 * ray queries.
 */
module SceneGraph {
  import opened Wrappers
  import opened Native
  import ThreeExtensions
  import Timing
  import Components

  /** The properties a component reads (`undefined` as `None`); `children` by identity. */
  datatype Props = Props(
    name: Option<string>,
    children: Option<nat>,
    group: Option<int>,
    isHitTestVisible: Option<bool>,
    isVisible: Option<bool>,
    position: Option<Vector3>,
    rotation: Option<Quaternion>,
    renderOrder: Option<int>,
    camera: Option<Camera>)

  /** `shouldComponentUpdate(nextProps)`: re-render when the `children` reference changed. */
  function ShouldComponentUpdate(current: Props, next: Props): bool
  {
    current.children != next.children
  }

  /**
   * Only the identity of `children` decides: with the same children no change
   * to any other prop causes a re-render, and new children always do.
   */
  lemma ShouldComponentUpdateOnlyOnChildren(current: Props, next: Props)
    ensures next.children == current.children ==> !ShouldComponentUpdate(current, next)
    ensures next.children != current.children ==> ShouldComponentUpdate(current, next)
    ensures forall other: Props :: other.children == next.children ==>
      ShouldComponentUpdate(current, other) == ShouldComponentUpdate(current, next)
  {
  }

  /** JavaScript truthiness of an optional number. */
  predicate TruthyInt(n: Option<int>)
  {
    n.Some? && n.value != 0
  }

  predicate TruthyReal(t: Option<real>)
  {
    t.Some? && t.value != 0.0
  }

  // ---------------------------------------------------------------------------
  // The hit-test index
  // ---------------------------------------------------------------------------

  /**
   * The octree's content. It is created with `undeferred: false`, so an added
   * node waits in `pending` until the next `update()` moves it into `indexed`;
   * searches see `indexed` only.
   */
  datatype OctreeState = OctreeState(pending: set<Object3D>, indexed: set<Object3D>)
  {
    /** The nodes added and not removed since. */
    function Tracked(): set<Object3D>
    {
      pending + indexed
    }

    predicate Tracks(o: Object3D)
    {
      o in Tracked()
    }
  }

  const EmptyOctree := OctreeState({}, {})

  function OctreeAdd(s: OctreeState, o: Object3D): (r: OctreeState)
    ensures r.Tracked() == s.Tracked() + {o} && r.indexed == s.indexed
  {
    s.(pending := s.pending + {o})
  }

  function OctreeRemove(s: OctreeState, o: Object3D): (r: OctreeState)
    ensures r.Tracked() == s.Tracked() - {o}
    ensures r.pending <= s.pending && r.indexed <= s.indexed
  {
    OctreeState(s.pending - {o}, s.indexed - {o})
  }

  function OctreeUpdate(s: OctreeState): (r: OctreeState)
    ensures r.pending == {} && r.indexed == s.Tracked() == r.Tracked()
  {
    OctreeState({}, s.indexed + s.pending)
  }

  /** Adding a node the index does not track and removing it again restores the index. */
  lemma AddThenRemove(s: OctreeState, o: Object3D)
    requires !s.Tracks(o)
    ensures OctreeRemove(OctreeAdd(s, o), o) == s
  {
  }

  /** An added node is searchable after the next refresh, and only then. */
  lemma AddedSearchableAfterUpdate(s: OctreeState, o: Object3D)
    requires o !in s.indexed
    ensures o !in OctreeAdd(s, o).indexed
    ensures o in OctreeUpdate(OctreeAdd(s, o)).indexed
  {
  }

  /** Refreshing twice is refreshing once. */
  lemma UpdateIdempotent(s: OctreeState)
    ensures OctreeUpdate(OctreeUpdate(s)) == OctreeUpdate(s)
  {
  }

  // ---------------------------------------------------------------------------
  // Ray queries
  // ---------------------------------------------------------------------------

  datatype Ray = Ray(origin: Vector3, direction: Vector3, far: real)
  /** A library intersection: distance, point and the node that was hit. */
  datatype Intersection = Intersection(distance: real, point: Vector3, node: Object3D)
  /** An intersection with the component it resolves to. */
  datatype Hit = Hit(intersection: Intersection, component: Option<ComponentId>)

  /**
   * The three.js calls the raycaster makes, as functions of their arguments:
   * the camera ray through a viewport position, `intersectObject`,
   * `intersectObjects`, and the octree search over the indexed nodes.
   */
  datatype Library = Library(
    rayFrom: (Vector2, Camera) -> Ray,
    intersectObject: (Ray, Object3D?, Option<bool>) -> seq<Intersection>,
    intersectObjects: (Ray, seq<Object3D>, Option<bool>) -> seq<Intersection>,
    search: (Ray, set<Object3D>) -> seq<Object3D>)

  /** A member of a target collection: a component or a native node. */
  datatype Member = AComponent(component: ThreeObject) | ANative(node: Object3D)
  /** What iterating a collection yields: a member, or a `[key, member]` pair. */
  datatype Element = Plain(member: Member) | Pair(key: nat, member: Member)

  /** The shapes of the second argument of `raycast`. */
  datatype Target =
    | Absent
    | OneComponent(component: ThreeObject)
    | OneNative(node: Object3D)
    | ArrayOf(elements: seq<Element>)
    | MapOf(entries: seq<(nat, Member)>)
    | SetOf(members: seq<Member>)
    | IterableOf(elements: seq<Element>)

  /** What `raycast` returns: `undefined`, one hit or `null`, or a sequence of hits. */
  datatype RaycastResult = Undefined | OneHit(hit: Option<Hit>) | Hits(hits: seq<Hit>)

  /**
   * `getIterable`: an array as it is (even an empty one), the values of a map
   * or a set, the elements of any other iterable; nothing for an absent target.
   */
  function GetIterable(t: Target): (r: Option<seq<Element>>)
    requires !t.OneComponent? && !t.OneNative?
    ensures r.None? <==> t.Absent?
    ensures t.ArrayOf? || t.IterableOf? ==> r == Some(t.elements)
    ensures t.MapOf? ==> (r.Some? && |r.value| == |t.entries| &&
                          forall i :: 0 <= i < |t.entries| ==> r.value[i] == Plain(t.entries[i].1))
    ensures t.SetOf? ==> (r.Some? && |r.value| == |t.members| &&
                          forall i :: 0 <= i < |t.members| ==> r.value[i] == Plain(t.members[i]))
  {
    match t
    case Absent => None
    case ArrayOf(es) => Some(es)
    case MapOf(entries) => Some(seq(|entries|, i requires 0 <= i < |entries| => Plain(entries[i].1)))
    case SetOf(members) => Some(seq(|members|, i requires 0 <= i < |members| => Plain(members[i])))
    case IterableOf(es) => Some(es)
  }

  /** `if (object instanceof Array) object = object[1]`. */
  function Unwrap(e: Element): Member
  {
    match e
    case Plain(m) => m
    case Pair(_, m) => m
  }

  /**
   * `convertIntersection(x, fallback)`: the hit resolves to the back-reference
   * of the node that was hit when there is one, otherwise to the fallback.
   */
  function Convert(x: Intersection, fallback: Option<ComponentId>): (h: Hit)
    reads x.node`component
    ensures h.intersection == x
    ensures x.node.component.Some? ==> h.component == x.node.component
    ensures x.node.component.None? ==> h.component == fallback
  {
    Hit(x, if x.node.component.Some? then x.node.component else fallback)
  }

  /** Every intersection converted, in library order. */
  function ConvertSeq(xs: seq<Intersection>, fallback: Option<ComponentId>): (r: seq<Hit>)
    reads (set x | x in xs :: x.node)`component
    ensures |r| == |xs|
    ensures forall i :: 0 <= i < |xs| ==> r[i] == Convert(xs[i], fallback)
  {
    if xs == [] then []
    else ConvertSeq(xs[..|xs| - 1], fallback) + [Convert(xs[|xs| - 1], fallback)]
  }

  /** The node a member stands for and the fallback component its hits resolve to. */
  function MemberNode(m: Member): Object3D?
    reads if m.AComponent? then {m.component} else {}
  {
    match m
    case AComponent(c) => c.object3D
    case ANative(o) => o
  }

  function MemberFallback(m: Member): Option<ComponentId>
  {
    match m
    case AComponent(c) => Some(c.id)
    case ANative(_) => None
  }

  /** The hits of one member of a collection target. */
  ghost function MemberHits(lib: Library, ray: Ray, m: Member, recursive: Option<bool>): seq<Hit>
    reads *
  {
    ConvertSeq(lib.intersectObject(ray, MemberNode(m), recursive), MemberFallback(m))
  }

  /** `mapToIntersectionIterator`: per element in collection order, each element's hits in library order. */
  ghost function ElementsHits(lib: Library, ray: Ray, es: seq<Element>, recursive: Option<bool>): seq<Hit>
    reads *
  {
    if es == [] then []
    else ElementsHits(lib, ray, es[..|es| - 1], recursive) + MemberHits(lib, ray, Unwrap(es[|es| - 1]), recursive)
  }

  /** The hits of a concatenation of collections are the concatenation of their hits. */
  lemma {:induction false} ElementsHitsAppend(lib: Library, ray: Ray, a: seq<Element>, b: seq<Element>, recursive: Option<bool>)
    ensures ElementsHits(lib, ray, a + b, recursive) == ElementsHits(lib, ray, a, recursive) + ElementsHits(lib, ray, b, recursive)
  {
    if b != [] {
      var b' := b[..|b| - 1];
      ElementsHitsAppend(lib, ray, a, b', recursive);
      assert (a + b)[..|a + b| - 1] == a + b';
      assert (a + b)[|a + b| - 1] == b[|b| - 1];
    } else {
      assert a + b == a;
    }
  }

  /**
   * The `j`-th hit of the member at position `i` sits after the hits of the
   * members before it, and resolves to its node's back-reference, or else to
   * the fallback of that same member: the member itself when it is a
   * component, nothing when it is a native node.
   */
  lemma ElementsHitsResolve(lib: Library, ray: Ray, es: seq<Element>, recursive: Option<bool>, i: int, j: int)
    requires 0 <= i < |es|
    requires 0 <= j < |MemberHits(lib, ray, Unwrap(es[i]), recursive)|
    ensures |ElementsHits(lib, ray, es[..i], recursive)| + j < |ElementsHits(lib, ray, es, recursive)|
    ensures var h := ElementsHits(lib, ray, es, recursive)[|ElementsHits(lib, ray, es[..i], recursive)| + j];
      && h == MemberHits(lib, ray, Unwrap(es[i]), recursive)[j]
      && (h.intersection.node.component.Some? ==> h.component == h.intersection.node.component)
      && (h.intersection.node.component.None? ==> h.component == MemberFallback(Unwrap(es[i])))
  {
    var a, e, b := es[..i], [es[i]], es[i + 1..];
    assert es == a + e + b;
    ElementsHitsAppend(lib, ray, a + e, b, recursive);
    ElementsHitsAppend(lib, ray, a, e, recursive);
    assert e[..0] == [];
    assert ElementsHits(lib, ray, e, recursive) == MemberHits(lib, ray, Unwrap(es[i]), recursive);
  }

  /** The whole answer of `raycast` for a ray, the indexed nodes, a target and the `recursive` argument. */
  ghost function RaycastAnswer(lib: Library, ray: Ray, indexed: set<Object3D>, t: Target, recursive: Option<bool>): RaycastResult
    reads *
  {
    match t
    case OneComponent(c) =>
      var xs := lib.intersectObject(ray, c.object3D, recursive);
      if recursive.None? then OneHit(if |xs| > 0 then Some(Convert(xs[0], Some(c.id))) else None)
      else Hits(ConvertSeq(xs, None))
    case OneNative(o) =>
      var xs := lib.intersectObject(ray, o, recursive);
      if recursive.None? then OneHit(if |xs| > 0 then Some(Convert(xs[0], None)) else None)
      else Hits(ConvertSeq(xs, None))
    case Absent =>
      var candidates := lib.search(ray, indexed);
      Hits(if |candidates| > 0 then ConvertSeq(lib.intersectObjects(ray, candidates, recursive), None) else [])
    case _ =>
      Hits(ElementsHits(lib, ray, GetIterable(t).value, recursive))
  }

  /** An array target, even an empty one, takes the per-target path: no index search, and nothing for `[]`. */
  lemma EmptyArrayYieldsNothing(lib: Library, ray: Ray, indexed: set<Object3D>, recursive: Option<bool>)
    ensures RaycastAnswer(lib, ray, indexed, ArrayOf([]), recursive) == Hits([])
  {
  }

  /**
   * A single native target with `recursive` omitted yields its first hit or
   * null; with it given, every hit in order. No hit falls back to a component.
   */
  lemma SingleTargetShape(lib: Library, ray: Ray, indexed: set<Object3D>, o: Object3D, recursive: Option<bool>)
    ensures var xs := lib.intersectObject(ray, o, recursive);
      recursive.None? ==>
        && RaycastAnswer(lib, ray, indexed, OneNative(o), recursive).OneHit?
        && (RaycastAnswer(lib, ray, indexed, OneNative(o), recursive).hit.Some? <==> |xs| > 0)
        && (|xs| > 0 ==> RaycastAnswer(lib, ray, indexed, OneNative(o), recursive).hit.value == Convert(xs[0], None))
    ensures recursive.Some? ==>
      RaycastAnswer(lib, ray, indexed, OneNative(o), recursive) == Hits(ConvertSeq(lib.intersectObject(ray, o, recursive), None))
  {
  }

  /**
   * A single component target: with `recursive` omitted, its node's first hit or
   * null, resolving to the target when the node has no back-reference; with it
   * given, every hit of its node in order, with no fallback at all.
   */
  lemma SingleComponentShape(lib: Library, ray: Ray, indexed: set<Object3D>, c: ThreeObject, recursive: Option<bool>)
    ensures var xs := lib.intersectObject(ray, c.object3D, recursive);
      recursive.None? ==>
        && RaycastAnswer(lib, ray, indexed, OneComponent(c), recursive).OneHit?
        && (RaycastAnswer(lib, ray, indexed, OneComponent(c), recursive).hit.Some? <==> |xs| > 0)
        && (|xs| > 0 && xs[0].node.component.None? ==>
              RaycastAnswer(lib, ray, indexed, OneComponent(c), recursive).hit.value.component == Some(c.id))
    ensures var xs := lib.intersectObject(ray, c.object3D, recursive);
      recursive.Some? ==>
        && RaycastAnswer(lib, ray, indexed, OneComponent(c), recursive) == Hits(ConvertSeq(xs, None))
        && forall k :: 0 <= k < |xs| && xs[k].node.component.None? ==>
             RaycastAnswer(lib, ray, indexed, OneComponent(c), recursive).hits[k].component == None
  {
  }

  // ---------------------------------------------------------------------------
  // The raycaster: hit-test index and query dispatch
  // ---------------------------------------------------------------------------

  class Raycaster {
    /** The scene it serves (`m_scene`, and the scene-info link it reads the camera through). */
    var scene: ThreeScene?
    var octree: OctreeState

    constructor ()
      ensures scene == null && octree == EmptyOctree
    {
      scene := null;
      octree := EmptyOctree;
    }

    /** The scene's component, when there is a scene. */
    function SceneBase(): set<ThreeObject>
      reads this`scene
    {
      if scene == null then {} else {scene.base}
    }

    /** The scene's own node (`m_scene.sceneObject`), never indexed. */
    function Root(): Object3D?
      reads this`scene, SceneBase()`object3D
    {
      if scene == null then null else scene.base.object3D
    }

    method Initialize(s: ThreeScene)
      modifies this`scene
      ensures scene == s
    {
      scene := s;
    }

    method Dispose()
      modifies this`scene
      ensures scene == null
    {
      scene := null;
    }

    /** `subscribe(o)`: every node but the scene's own is added to the index. */
    method Subscribe(o: Object3D)
      requires scene != null
      modifies this`octree
      ensures octree == if o == Root() then old(octree) else OctreeAdd(old(octree), o)
    {
      if scene.base.object3D != o {
        octree := OctreeAdd(octree, o);
      }
    }

    /** `unsubscribe(o)`. */
    method Unsubscribe(o: Object3D)
      modifies this`octree
      ensures octree == OctreeRemove(old(octree), o)
    {
      octree := OctreeRemove(octree, o);
    }

    /** `OnPostRender()`: the one place the index is refreshed. */
    method OnPostRender()
      modifies this`octree
      ensures octree == OctreeUpdate(old(octree))
    {
      octree := OctreeUpdate(octree);
    }

    /** `createIntersectionIterator`, and the loop of `createRaycastIterator`. */
    method ConvertAll(xs: seq<Intersection>, fallback: Option<ComponentId>) returns (r: seq<Hit>)
      ensures r == ConvertSeq(xs, fallback)
    {
      r := [];
      for i := 0 to |xs|
        invariant |r| == i
        invariant forall j :: 0 <= j < i ==> r[j] == Convert(xs[j], fallback)
      {
        r := r + [Convert(xs[i], fallback)];
      }
    }

    /** `createRaycastIterator`: the candidates intersected all at once; none yields nothing. */
    method RaycastAll(lib: Library, ray: Ray, candidates: seq<Object3D>, recursive: Option<bool>) returns (r: seq<Hit>)
      ensures candidates == [] ==> r == []
      ensures candidates != [] ==> r == ConvertSeq(lib.intersectObjects(ray, candidates, recursive), None)
    {
      r := [];
      if |candidates| > 0 {
        r := ConvertAll(lib.intersectObjects(ray, candidates, recursive), None);
      }
    }

    /** `mapToIntersectionIterator`: each element of the collection in turn. */
    method MapToIntersections(lib: Library, ray: Ray, es: seq<Element>, recursive: Option<bool>) returns (r: seq<Hit>)
      ensures r == ElementsHits(lib, ray, es, recursive)
    {
      r := [];
      for i := 0 to |es|
        invariant r == ElementsHits(lib, ray, es[..i], recursive)
      {
        var m := Unwrap(es[i]);
        var hits;
        match m {
          case ANative(o) =>
            hits := ConvertAll(lib.intersectObject(ray, o, recursive), None);
          case AComponent(c) =>
            hits := ConvertAll(lib.intersectObject(ray, c.object3D, recursive), Some(c.id));
        }
        assert es[..i + 1][..i] == es[..i];
        r := r + hits;
      }
      assert es[..|es|] == es;
    }

    /**
     * `raycast(viewportPosition, objects, recursive)`: nothing without a camera;
     * otherwise dispatch on the shape of the target. The index is only read.
     */
    method Raycast(lib: Library, viewport: Vector2, target: Target, recursive: Option<bool>) returns (r: RaycastResult)
      requires scene != null
      ensures scene.camera == null ==> r == Undefined
      ensures scene.camera != null ==>
        r == RaycastAnswer(lib, lib.rayFrom(viewport, scene.camera), octree.indexed, target, recursive)
    {
      if scene.camera == null {
        return Undefined;
      }
      var ray := lib.rayFrom(viewport, scene.camera);
      match target {
        case OneComponent(c) =>
          var xs := lib.intersectObject(ray, c.object3D, recursive);
          if recursive.None? {
            r := OneHit(if |xs| > 0 then Some(Convert(xs[0], Some(c.id))) else None);
          } else {
            var hits := ConvertAll(xs, None);
            r := Hits(hits);
          }
        case OneNative(o) =>
          var xs := lib.intersectObject(ray, o, recursive);
          if recursive.None? {
            r := OneHit(if |xs| > 0 then Some(Convert(xs[0], None)) else None);
          } else {
            var hits := ConvertAll(xs, None);
            r := Hits(hits);
          }
        case Absent =>
          var candidates := lib.search(ray, octree.indexed);
          var hits := RaycastAll(lib, ray, candidates, recursive);
          r := Hits(hits);
        case _ =>
          var es := GetIterable(target).value;
          var hits := MapToIntersections(lib, ray, es, recursive);
          r := Hits(hits);
      }
    }
  }

  // ---------------------------------------------------------------------------
  // Components with a native node
  // ---------------------------------------------------------------------------

  /**
   * `ThreeObject`: a component that owns one scene node, keeps its properties
   * in step with its props and mounts its registered children's nodes under it.
   */
  class ThreeObject {
    const id: ComponentId
    /** The interaction tracker it subscribes its node to: the scene's raycaster. */
    const tracker: Raycaster
    const registry: Components.ComponentRegistry<ThreeObject>
    var props: Props
    var hitTestVisible: bool
    var object3D: Object3D?
    /** The components reachable through the registry, this one included. */
    ghost var nodes: set<ThreeObject>
    /** The registries of those components. */
    ghost var regs: set<Components.ComponentRegistry<ThreeObject>>

    constructor (id: ComponentId, tracker: Raycaster, props: Props)
      ensures this.id == id && this.tracker == tracker && this.props == props
      ensures hitTestVisible && object3D == null
      ensures fresh(registry) && registry.Valid() && registry.keys == [] && registry.components == map[]
      ensures nodes == {this} && regs == {registry} && Ranked()
    {
      this.id := id;
      this.tracker := tracker;
      this.props := props;
      hitTestVisible := true;
      object3D := null;
      registry := new Components.ComponentRegistry<ThreeObject>();
      nodes := {this};
      regs := {registry};
    }

    /** The node, as a frame. */
    function Obj(): set<Object3D>
      reads this`object3D
    {
      if object3D == null then {} else {object3D}
    }

    /** The `isVisible` getter: false without a node. */
    function IsVisible(): bool
      reads this`object3D, Obj()`visible
    {
      object3D != null && object3D.visible
    }

    /** The node carries the back-reference exactly when it should be hit-testable. */
    ghost predicate InSync()
      reads this`hitTestVisible, this`object3D, Obj()`visible, Obj()`component
    {
      object3D != null ==> (object3D.component.Some? <==> hitTestVisible && object3D.visible)
    }

    /** The node is in the index exactly when it carries the back-reference and is not the scene's own. */
    ghost predicate IndexAgrees()
      reads this`object3D, Obj()`component, tracker`octree, tracker`scene, tracker.SceneBase()`object3D
    {
      object3D != null ==>
        (tracker.octree.Tracks(object3D) <==> object3D.component.Some? && object3D != tracker.Root())
    }

    ghost predicate Consistent()
      reads this`hitTestVisible, this`object3D, Obj()`visible, Obj()`component
      reads tracker`octree, tracker`scene, tracker.SceneBase()`object3D
    {
      InSync() && IndexAgrees()
    }

    /**
     * `enableInteraction(o)`: only a node without a back-reference gets one
     * (this component) and is subscribed, so subscriptions never repeat.
     */
    method EnableInteraction(o: Object3D?)
      requires tracker.scene != null
      modifies (if o == null then {} else {o})`component, tracker`octree
      ensures o != null && old(o.component).None? ==>
        o.component == Some(id) &&
        tracker.octree == (if o == tracker.Root() then old(tracker.octree) else OctreeAdd(old(tracker.octree), o))
      ensures o == null || old(o.component).Some? ==>
        tracker.octree == old(tracker.octree) && (o != null ==> o.component == old(o.component))
    {
      if o != null && o.component.None? {
        o.component := Some(id);
        tracker.Subscribe(o);
      }
    }

    /**
     * `disableInteraction(o)`: only a node with a back-reference loses it and is
     * unsubscribed, so unsubscriptions never repeat.
     */
    method DisableInteraction(o: Object3D?)
      modifies (if o == null then {} else {o})`component, tracker`octree
      ensures o != null && old(o.component).Some? ==>
        o.component == None && tracker.octree == OctreeRemove(old(tracker.octree), o)
      ensures o == null || old(o.component).None? ==>
        tracker.octree == old(tracker.octree) && (o != null ==> o.component == old(o.component))
    {
      if o != null && o.component.Some? {
        o.component := None;
        tracker.Unsubscribe(o);
      }
    }

    /** Subscribe or unsubscribe the node as hit-test visibility and visibility now say. */
    method Resync()
      requires tracker.scene != null && IndexAgrees()
      modifies Obj()`component, tracker`octree
      ensures Consistent()
      ensures object3D == null ==> tracker.octree == old(tracker.octree)
      ensures tracker.octree.Tracked() - Obj() == old(tracker.octree.Tracked()) - Obj()
    {
      if hitTestVisible && IsVisible() {
        EnableInteraction(object3D);
      } else {
        DisableInteraction(object3D);
      }
    }

    /**
     * The `isHitTestVisible` setter: a change is stored and the subscription
     * follows; setting the current value does nothing.
     */
    method SetIsHitTestVisible(value: bool)
      requires tracker.scene != null && IndexAgrees()
      modifies this`hitTestVisible, Obj()`component, tracker`octree
      ensures hitTestVisible == value && IndexAgrees()
      ensures tracker.octree.Tracked() - Obj() == old(tracker.octree.Tracked()) - Obj()
      ensures old(hitTestVisible) == value ==>
        tracker.octree == old(tracker.octree) && (object3D != null ==> object3D.component == old(object3D.component))
      ensures old(hitTestVisible) != value ==> Consistent()
      ensures old(InSync()) ==> InSync()
    {
      if hitTestVisible != value {
        hitTestVisible := value;
        Resync();
      }
    }

    /**
     * The `isVisible` setter: without a node, or with the current value, it does
     * nothing; otherwise the node's visibility changes and the subscription follows.
     */
    method SetIsVisible(value: bool)
      requires tracker.scene != null && IndexAgrees()
      modifies Obj()`visible, Obj()`component, tracker`octree
      ensures IndexAgrees()
      ensures tracker.octree.Tracked() - Obj() == old(tracker.octree.Tracked()) - Obj()
      ensures object3D != null ==> object3D.visible == value
      ensures object3D == null || old(object3D.visible) == value ==>
        tracker.octree == old(tracker.octree) && (object3D != null ==> object3D.component == old(object3D.component))
      ensures object3D != null && old(object3D.visible) != value ==> Consistent()
      ensures old(InSync()) ==> InSync()
    {
      if object3D != null && object3D.visible != value {
        object3D.visible := value;
        Resync();
      }
    }

    /** The part of `updateObjectProperties()` that writes the node directly: name, group, position, rotation. */
    method AssignNodeFields(o: Object3D)
      modifies o`name, o`renderOrderGroup, o`position, o`rotation
      ensures o.name == props.name
      ensures o.renderOrderGroup == ThreeExtensions.StoredGroup(props.group, old(o.renderOrderGroup))
      ensures o.position == props.position.GetOr(old(o.position))
      ensures o.rotation == props.rotation.GetOr(old(o.rotation))
    {
      o.name := props.name;
      ThreeExtensions.SetRenderOrderGroup(o, props.group, false);
      if props.position.Some? {
        o.position := props.position.value;
      }
      if props.rotation.Some? {
        o.rotation := props.rotation.value;
      }
    }

    /** The part of `updateObjectProperties()` that goes through the visibility setters. */
    method AssignVisibility()
      requires tracker.scene != null && IndexAgrees()
      modifies this`hitTestVisible, Obj()`visible, Obj()`component, tracker`octree
      ensures IndexAgrees()
      ensures tracker.octree.Tracked() - Obj() == old(tracker.octree.Tracked()) - Obj()
      ensures hitTestVisible == (if object3D != null then props.isHitTestVisible.GetOr(old(hitTestVisible)) else old(hitTestVisible))
      ensures object3D != null ==> object3D.visible == props.isVisible.GetOr(old(object3D.visible))
      ensures old(InSync()) ==> InSync()
      ensures Consistent() ||
        (tracker.octree == old(tracker.octree) && (object3D != null ==> object3D.component == old(object3D.component)))
    {
      if object3D != null {
        if props.isHitTestVisible.Some? {
          SetIsHitTestVisible(props.isHitTestVisible.value);
        }
        if props.isVisible.Some? {
          SetIsVisible(props.isVisible.value);
        }
      }
    }

    /**
     * `updateObjectProperties()`: with a node, its name and group are always
     * overwritten, position and rotation copied when given, hit-test
     * visibility and visibility applied through their setters when defined,
     * and the render order set when it is truthy (so `0` is ignored).
     */
    method UpdateObjectProperties()
      requires tracker.scene != null && IndexAgrees()
      modifies this`hitTestVisible, Obj()`name, Obj()`renderOrderGroup, Obj()`position, Obj()`rotation
      modifies Obj()`visible, Obj()`component, Obj()`renderOrder, tracker`octree
      ensures IndexAgrees()
      ensures tracker.octree.Tracked() - Obj() == old(tracker.octree.Tracked()) - Obj()
      ensures object3D == null ==> hitTestVisible == old(hitTestVisible) && tracker.octree == old(tracker.octree)
      ensures object3D != null ==>
        && object3D.name == props.name
        && object3D.renderOrderGroup == ThreeExtensions.StoredGroup(props.group, old(object3D.renderOrderGroup))
        && object3D.position == props.position.GetOr(old(object3D.position))
        && object3D.rotation == props.rotation.GetOr(old(object3D.rotation))
        && hitTestVisible == props.isHitTestVisible.GetOr(old(hitTestVisible))
        && object3D.visible == props.isVisible.GetOr(old(object3D.visible))
        && object3D.renderOrder == (if TruthyInt(props.renderOrder) then props.renderOrder.value else old(object3D.renderOrder))
      ensures old(InSync()) ==> InSync()
      ensures Consistent() ||
        (tracker.octree == old(tracker.octree) && (object3D != null ==> object3D.component == old(object3D.component)))
    {
      if object3D != null {
        AssignNodeFields(object3D);
        AssignVisibility();
        if TruthyInt(props.renderOrder) {
          object3D.renderOrder := props.renderOrder.value;
        }
      }
    }

    /**
     * `setObject3D(value)`: the previous node is unsubscribed, the new one takes
     * its place and gets the properties, and it is subscribed exactly when it
     * is hit-test visible and visible.
     */
    method SetObject3D(value: Object3D)
      requires tracker.scene != null && IndexAgrees()
      requires value.component.None? && !tracker.octree.Tracks(value)
      modifies this`object3D, this`hitTestVisible, Obj()`component, tracker`octree
      modifies value`name, value`renderOrderGroup, value`position, value`rotation, value`visible
      modifies value`component, value`renderOrder
      ensures object3D == value && Consistent()
      ensures old(object3D) != null && old(object3D) != value ==>
        old(object3D).component.None? && !tracker.octree.Tracks(old(object3D))
      ensures value.name == props.name
      ensures value.renderOrderGroup == ThreeExtensions.StoredGroup(props.group, old(value.renderOrderGroup))
      ensures value.position == props.position.GetOr(old(value.position))
      ensures value.rotation == props.rotation.GetOr(old(value.rotation))
      ensures hitTestVisible == props.isHitTestVisible.GetOr(old(hitTestVisible))
      ensures value.visible == props.isVisible.GetOr(old(value.visible))
      ensures value.renderOrder == (if TruthyInt(props.renderOrder) then props.renderOrder.value else old(value.renderOrder))
      ensures tracker.octree.Tracked() - old(Obj()) - {value} == old(tracker.octree.Tracked()) - old(Obj()) - {value}
    {
      ghost var before := tracker.octree.Tracked();
      ghost var oldObj := Obj();
      var previous := object3D;
      if previous != null {
        DisableInteraction(previous);
      }
      ghost var untracked := tracker.octree.Tracked();
      assert untracked - oldObj == before - oldObj;
      object3D := value;
      UpdateObjectProperties();
      if previous != null && previous != value {
        assert tracker.octree.Tracked() - {value} == untracked - {value};
        assert previous !in tracker.octree.Tracked() - {value};
      }
      ghost var applied := tracker.octree.Tracked();
      assert applied - {value} == untracked - {value};
      if hitTestVisible && IsVisible() {
        EnableInteraction(object3D);
      }
      assert tracker.octree.Tracked() - {value} == untracked - {value};
      forall n: Object3D | n !in oldObj && n != value
        ensures n in tracker.octree.Tracked() <==> n in before
      {
        assert n in tracker.octree.Tracked() - {value} <==> n in untracked - {value};
        assert n in untracked - oldObj <==> n in before - oldObj;
      }
    }

    /** `componentWillUnmount()`: the node is unsubscribed and dropped, so `isVisible` reads false afterwards. */
    method ComponentWillUnmount()
      modifies this`object3D, Obj()`component, tracker`octree
      ensures object3D == null && !IsVisible()
      ensures old(object3D) != null ==> old(object3D).component.None?
      ensures old(object3D) != null && old(object3D.component).Some? ==>
        tracker.octree == OctreeRemove(old(tracker.octree), old(object3D))
      ensures old(object3D) == null || old(object3D.component).None? ==> tracker.octree == old(tracker.octree)
    {
      if object3D != null {
        DisableInteraction(object3D);
        object3D := null;
      }
    }

    /** `componentWillReceiveProps(nextProps)`: re-applies the props the component already has; `nextProps` is not read. */
    method ComponentWillReceiveProps(nextProps: Props)
      requires tracker.scene != null && IndexAgrees()
      modifies this`hitTestVisible, Obj()`name, Obj()`renderOrderGroup, Obj()`position, Obj()`rotation
      modifies Obj()`visible, Obj()`component, Obj()`renderOrder, tracker`octree
      ensures IndexAgrees() && (old(InSync()) ==> InSync())
      ensures tracker.octree.Tracked() - Obj() == old(tracker.octree.Tracked()) - Obj()
      ensures object3D == null ==> hitTestVisible == old(hitTestVisible) && tracker.octree == old(tracker.octree)
      ensures object3D != null ==>
        && object3D.name == props.name
        && object3D.renderOrderGroup == ThreeExtensions.StoredGroup(props.group, old(object3D.renderOrderGroup))
        && object3D.position == props.position.GetOr(old(object3D.position))
        && object3D.rotation == props.rotation.GetOr(old(object3D.rotation))
        && hitTestVisible == props.isHitTestVisible.GetOr(old(hitTestVisible))
        && object3D.visible == props.isVisible.GetOr(old(object3D.visible))
        && object3D.renderOrder == (if TruthyInt(props.renderOrder) then props.renderOrder.value else old(object3D.renderOrder))
      ensures Consistent() ||
        (tracker.octree == old(tracker.octree) && (object3D != null ==> object3D.component == old(object3D.component)))
    {
      UpdateObjectProperties();
    }

    /**
     * `componentMounted(c)`: the child's node is added under this one when both
     * exist; a child without a node draws a warning and nothing changes.
     */
    method ComponentMounted(c: ThreeObject) returns (warned: bool)
      modifies Obj()`children
      ensures warned <==> c.object3D == null
      ensures !warned && object3D != null ==>
        object3D.children == if c.object3D == object3D then old(object3D.children) else old(object3D.children) + [c.object3D]
      ensures (warned || object3D == null) && object3D != null ==> object3D.children == old(object3D.children)
    {
      warned := c.object3D == null;
      if !warned && object3D != null {
        object3D.Add(c.object3D);
      }
    }

    /** `componentUnmounted(c)`: the child's node leaves this one's children when both exist. */
    method ComponentUnmounted(c: ThreeObject) returns (warned: bool)
      modifies Obj()`children
      ensures warned <==> c.object3D == null
      ensures !warned && object3D != null && c.object3D !in old(object3D.children) ==>
        object3D.children == old(object3D.children)
      ensures !warned && object3D != null && c.object3D in old(object3D.children) ==>
        exists i :: (0 <= i < |old(object3D.children)| && old(object3D.children)[i] == c.object3D &&
                     c.object3D !in old(object3D.children)[..i] &&
                     object3D.children == old(object3D.children)[..i] + old(object3D.children)[i + 1..])
      ensures !warned && object3D != null && c.object3D in old(object3D.children) ==>
        |object3D.children| == |old(object3D.children)| - 1 &&
        multiset(object3D.children) == multiset(old(object3D.children)) - multiset{c.object3D}
      ensures (warned || object3D == null) && object3D != null ==> object3D.children == old(object3D.children)
    {
      warned := c.object3D == null;
      if !warned && object3D != null {
        ghost var before := object3D.children;
        object3D.Remove(c.object3D);
        if c.object3D in before {
          ghost var i :| 0 <= i < |before| && before[i] == c.object3D && object3D.children == before[..i] + before[i + 1..];
          CutOut(before, i);
        }
      }
    }

    /**
     * `onRef(key, c)`: the registry is updated, then a newly registered child
     * is mounted under this node or a removed one unmounted from it.
     */
    method OnRef(key: string, c: Option<ThreeObject>) returns (forwardedTo: Option<Components.Ref>)
      requires registry.Valid()
      modifies registry`keys, registry`components, Obj()`children
      ensures registry.Valid()
      ensures forwardedTo == if old(registry.OldRef(key)) != Components.NoRef then Some(old(registry.OldRef(key))) else None
      ensures c.Some? ==>
        && registry.components == old(registry.components)[key := c.value]
        && registry.keys == (if key in old(registry.keys) then old(registry.keys) else old(registry.keys) + [key])
      ensures c.None? && key in old(registry.components) ==>
        && registry.components == old(registry.components) - {key}
        && registry.keys == Components.Without(old(registry.keys), key)
      ensures c.None? && key !in old(registry.components) ==>
        && registry.components == old(registry.components) && registry.keys == old(registry.keys)
        && (object3D != null ==> object3D.children == old(object3D.children))
      // mounting
      ensures c.Some? && c.value.object3D != null && object3D != null && c.value.object3D != object3D ==>
        object3D.children == old(object3D.children) + [c.value.object3D]
      ensures c.Some? && (c.value.object3D == null || c.value.object3D == object3D) && object3D != null ==>
        object3D.children == old(object3D.children)
      // unmounting: one occurrence of the removed child's node leaves this node's children
      ensures c.None? && key in old(registry.components) && object3D != null ==>
        var u := old(registry.components)[key].object3D;
        && (u == null || u !in old(object3D.children) ==> object3D.children == old(object3D.children))
        && (u != null && u in old(object3D.children) ==>
              && (exists i :: (0 <= i < |old(object3D.children)| && old(object3D.children)[i] == u &&
                               u !in old(object3D.children)[..i] &&
                               object3D.children == old(object3D.children)[..i] + old(object3D.children)[i + 1..]))
              && |object3D.children| == |old(object3D.children)| - 1
              && multiset(object3D.children) == multiset(old(object3D.children)) - multiset{u})
    {
      var event;
      forwardedTo, event := registry.OnRef(key, c);
      match event {
        case Mounted(child) =>
          var _ := ComponentMounted(child);
        case Unmounted(child) =>
          var _ := ComponentUnmounted(child);
        case NoEvent =>
      }
    }

    // -------------------------------------------------------------------------
    // The per-frame update walk
    // -------------------------------------------------------------------------

    /**
     * The registered components form a finite tree below this one: each
     * registered child owns a strictly smaller set of reachable components.
     */
    ghost predicate Ranked()
      reads this, nodes, regs
      decreases nodes
    {
      && this in nodes
      && registry in regs
      && registry.Valid()
      && (forall k :: k in registry.components ==>
            var c := registry.components[k];
            c in nodes && c.nodes <= nodes && c.regs <= regs && this !in c.nodes && c.Ranked())
    }

    /** The registered children in key order. */
    ghost function Children(): (r: seq<ThreeObject>)
      reads this, registry
      requires registry.Valid()
      ensures |r| == |registry.keys|
      ensures forall i :: 0 <= i < |r| ==> r[i] == registry.components[registry.keys[i]]
    {
      seq(|registry.keys|, i requires 0 <= i < |registry.keys| && registry.keys[i] in registry.components reads registry =>
            registry.components[registry.keys[i]])
    }

    /** Every registered child lies strictly below this component and is itself ranked. */
    lemma ChildrenRanked()
      requires Ranked()
      ensures forall c :: c in Children() ==> c in nodes && c.nodes < nodes && c.regs <= regs && c.Ranked()
    {
      forall c | c in Children()
        ensures c in nodes && c.nodes < nodes && c.regs <= regs && c.Ranked()
      {
        var i :| 0 <= i < |Children()| && Children()[i] == c;
        assert registry.keys[i] in registry.components;
      }
    }

    /** The child in key position `i` lies strictly below this component and is itself ranked. */
    lemma ChildRanked(i: nat)
      requires Ranked() && i < |registry.keys|
      ensures registry.keys[i] in registry.components
      ensures var c := registry.components[registry.keys[i]];
        c == Children()[i] && c in nodes && c.nodes < nodes && c.regs <= regs && c.Ranked()
    {
      ChildrenRanked();
      assert Children()[i] in Children();
    }

    /**
     * `update()`: nothing without a node; otherwise this component's
     * `OnUpdate` runs, then `update()` on each registered child in key order.
     * The result lists the components whose `OnUpdate` ran, in order.
     */
    method Update() returns (visited: seq<ComponentId>)
      requires Ranked()
      ensures visited == UpdateOrder(this)
      decreases nodes, 1
    {
      if object3D == null {
        return [];
      }
      var rest := UpdateChildren();
      visited := [id] + rest;
    }

    /** The `for ... in this.components` loop of `update()`. */
    method UpdateChildren() returns (visited: seq<ComponentId>)
      requires Ranked()
      ensures visited == UpdateOrderAll(Children(), nodes, regs)
      decreases nodes, 0
    {
      ghost var children, bound, rs := Children(), nodes, regs;
      visited := [];
      for i := 0 to |registry.keys|
        invariant visited == UpdateOrderAll(children[..i], bound, rs)
        invariant unchanged(bound, rs)
      {
        ChildRanked(i);
        UpdateOrderAllStep(children, i, bound, rs);
        var c := registry.components[registry.keys[i]];
        label Before:
        var v := c.Update();
        assert unchanged@Before(bound, rs);
        visited := visited + v;
      }
      assert children[..|children|] == children;
    }
  }

  /** The components whose `OnUpdate` runs when `update()` is called on `o`, in order. */
  ghost function UpdateOrder(o: ThreeObject): seq<ComponentId>
    reads o, o.nodes, o.regs
    requires o.Ranked()
    decreases o.nodes, 1
  {
    if o.object3D == null then []
    else [o.id] + UpdateOrderAll(o.Children(), o.nodes, o.regs)
  }

  /**
   * The walks of `cs` in order. The guard holds for every child of a ranked
   * component (`ChildRanked`); it only keeps the definition total.
   */
  ghost function UpdateOrderAll(cs: seq<ThreeObject>, bound: set<ThreeObject>,
                                regs: set<Components.ComponentRegistry<ThreeObject>>): seq<ComponentId>
    reads bound, regs
    decreases bound, 0, |cs|
  {
    if cs == [] then []
    else
      var last := cs[|cs| - 1];
      UpdateOrderAll(cs[..|cs| - 1], bound, regs)
      + if last in bound && last.nodes < bound && last.regs <= regs && last.Ranked() then UpdateOrder(last) else []
  }

  /** Cutting one entry out of a sequence takes exactly that entry away. */
  lemma CutOut<T>(s: seq<T>, i: nat)
    requires i < |s|
    ensures |s[..i] + s[i + 1..]| == |s| - 1
    ensures multiset(s[..i] + s[i + 1..]) == multiset(s) - multiset{s[i]}
  {
    assert s == s[..i] + [s[i]] + s[i + 1..];
  }

  /** One more child extends the walk by that child's own walk. */
  lemma UpdateOrderAllStep(cs: seq<ThreeObject>, i: nat, bound: set<ThreeObject>,
                           regs: set<Components.ComponentRegistry<ThreeObject>>)
    requires i < |cs|
    requires cs[i] in bound && cs[i].nodes < bound && cs[i].regs <= regs && cs[i].Ranked()
    ensures UpdateOrderAll(cs[..i + 1], bound, regs) == UpdateOrderAll(cs[..i], bound, regs) + UpdateOrder(cs[i])
  {
    assert cs[..i + 1][..i] == cs[..i];
  }

  // ---------------------------------------------------------------------------
  // Meshes
  // ---------------------------------------------------------------------------

  /** `ThreePolygon`: a component whose node is a mesh, with geometry and material kept on the component. */
  class ThreePolygon {
    const base: ThreeObject
    var mesh: Mesh?
    var geometry: Option<Geometry>
    var material: Option<MeshMaterial>

    constructor (base: ThreeObject)
      ensures this.base == base && mesh == null && geometry == None && material == None
    {
      this.base := base;
      mesh := null;
      geometry := None;
      material := None;
    }

    /** The mesh, as a frame. */
    function MeshFrame(): set<Mesh>
      reads this`mesh
    {
      if mesh == null then {} else {mesh}
    }

    /** `updateGeometry()`: the stored geometry goes onto the mesh, if there is one. */
    method UpdateGeometry()
      modifies MeshFrame()`geometry
      ensures mesh != null ==> mesh.geometry == geometry
    {
      if mesh != null {
        mesh.geometry := geometry;
      }
    }

    /** `updateMaterial()`: the stored material goes onto the mesh, an absent one as an empty array. */
    method UpdateMaterial()
      modifies MeshFrame()`material
      ensures mesh != null ==> mesh.material == material.GetOr(Several([]))
    {
      if mesh != null {
        mesh.material := material.GetOr(Several([]));
      }
    }

    /** The `geometry` setter: stored, and mirrored on the mesh when there is one. */
    method SetGeometry(value: Option<Geometry>)
      modifies this`geometry, MeshFrame()`geometry
      ensures geometry == value
      ensures mesh != null ==> mesh.geometry == value
      ensures mesh != null ==> mesh.material == old(mesh.material)
    {
      geometry := value;
      UpdateGeometry();
    }

    /** The `material` setter: stored, and mirrored on the mesh (absent as `[]`) when there is one. */
    method SetMaterial(value: Option<MeshMaterial>)
      modifies this`material, MeshFrame()`material
      ensures material == value
      ensures mesh != null ==> mesh.material == value.GetOr(Several([]))
      ensures mesh != null ==> mesh.geometry == old(mesh.geometry)
    {
      material := value;
      UpdateMaterial();
    }

    /**
     * `componentWillMount()`: a new mesh becomes the component's node, and
     * then receives the geometry and material stored so far.
     */
    method ComponentWillMount(meshId: nat)
      requires base.tracker.scene != null && base.IndexAgrees()
      modifies this`mesh, base`object3D, base`hitTestVisible, base.Obj()`component, base.tracker`octree
      ensures mesh != null && fresh(mesh) && base.object3D == mesh.object3D && mesh.object3D.id == meshId
      ensures mesh.geometry == geometry && mesh.material == material.GetOr(Several([]))
      ensures base.Consistent()
      ensures old(base.object3D) != null ==>
        old(base.object3D).component.None? && !base.tracker.octree.Tracks(old(base.object3D))
      ensures base.tracker.octree.Tracked() - old(base.Obj()) - {mesh.object3D} ==
        old(base.tracker.octree.Tracked()) - old(base.Obj()) - {mesh.object3D}
      // the props `setObject3D` applies to the new node, over the node's defaults
      ensures mesh.object3D.name == base.props.name
      ensures mesh.object3D.renderOrderGroup == ThreeExtensions.StoredGroup(base.props.group, None)
      ensures mesh.object3D.position == base.props.position.GetOr(Vector3(0.0, 0.0, 0.0))
      ensures mesh.object3D.rotation == base.props.rotation.GetOr(Quaternion(0.0, 0.0, 0.0, 1.0))
      ensures base.hitTestVisible == base.props.isHitTestVisible.GetOr(old(base.hitTestVisible))
      ensures mesh.object3D.visible == base.props.isVisible.GetOr(true)
      ensures mesh.object3D.renderOrder == (if TruthyInt(base.props.renderOrder) then base.props.renderOrder.value else 0)
    {
      var m := new Mesh(meshId);
      mesh := m;
      base.SetObject3D(m.object3D);
      UpdateGeometry();
      UpdateMaterial();
    }
  }

  // ---------------------------------------------------------------------------
  // The scene
  // ---------------------------------------------------------------------------

  /**
   * `ThreeScene`: the root component. It owns the raycaster its whole tree
   * reports to (and is the root that raycaster never indexes), the frame
   * time, the camera and its own scene node.
   */
  class ThreeScene {
    const base: ThreeObject
    const raycaster: Raycaster
    const time: Timing.TimeInfo
    var camera: Camera?
    var threeScene: Object3D?

    /** The constructor's wiring: the scene's component reports to the scene's raycaster, which serves this scene. */
    ghost predicate Wired()
      reads raycaster`scene, time
    {
      base.tracker == raycaster && raycaster.scene == this && time.Valid()
    }

    constructor (id: ComponentId, props: Props)
      ensures Wired()
      ensures fresh(base) && fresh(raycaster) && fresh(time) && fresh(base.registry)
      ensures base.id == id && base.props == props && base.hitTestVisible && base.object3D == null
      ensures base.nodes == {base} && base.regs == {base.registry} && base.Ranked()
      ensures raycaster.octree == EmptyOctree
      ensures time.history == [] && time.current == 0.0 && time.delta == 0.0
      ensures camera == null && threeScene == null
    {
      var r := new Raycaster();
      raycaster := r;
      base := new ThreeObject(id, r, props);
      time := new Timing.TimeInfo();
      camera := null;
      threeScene := null;
      new;
      r.Initialize(this);
    }

    /**
     * `updateCamera()`: a `camera` prop always wins; otherwise a camera already
     * set is kept; otherwise a default one is made and a warning issued.
     * Either way there is a camera afterwards.
     */
    method UpdateCamera(defaultCameraId: nat) returns (warned: bool)
      modifies this`camera
      ensures camera != null
      ensures base.props.camera.Some? ==> camera == base.props.camera.value && !warned
      ensures base.props.camera.None? && old(camera) != null ==> camera == old(camera) && !warned
      ensures base.props.camera.None? && old(camera) == null ==> fresh(camera) && camera.id == defaultCameraId && warned
    {
      warned := false;
      if base.props.camera.Some? {
        camera := base.props.camera.value;
      } else if camera == null {
        camera := new Camera(defaultCameraId);
        warned := true;
      }
    }

    /**
     * `componentWillMount()`: a new scene node becomes the component's node,
     * then the camera is settled. The scene node is the raycaster's root, so
     * it is never put in the index.
     */
    method ComponentWillMount(sceneNodeId: nat, defaultCameraId: nat) returns (warned: bool)
      requires Wired() && base.IndexAgrees()
      modifies this`threeScene, this`camera, base`object3D, base`hitTestVisible, base.Obj()`component, raycaster`octree
      ensures Wired()
      ensures threeScene != null && fresh(threeScene) && threeScene.id == sceneNodeId && base.object3D == threeScene
      ensures raycaster.Root() == threeScene && !raycaster.octree.Tracks(threeScene)
      ensures raycaster.octree.Tracked() - old(base.Obj()) - {threeScene} ==
        old(raycaster.octree.Tracked()) - old(base.Obj()) - {threeScene}
      // the props `setObject3D` applies to the new node, over the node's defaults
      ensures threeScene.name == base.props.name
      ensures threeScene.renderOrderGroup == ThreeExtensions.StoredGroup(base.props.group, None)
      ensures threeScene.position == base.props.position.GetOr(Vector3(0.0, 0.0, 0.0))
      ensures threeScene.rotation == base.props.rotation.GetOr(Quaternion(0.0, 0.0, 0.0, 1.0))
      ensures base.hitTestVisible == base.props.isHitTestVisible.GetOr(old(base.hitTestVisible))
      ensures threeScene.visible == base.props.isVisible.GetOr(true)
      ensures threeScene.renderOrder == (if TruthyInt(base.props.renderOrder) then base.props.renderOrder.value else 0)
      ensures base.Consistent()
      ensures camera != null
      ensures warned <==> base.props.camera.None? && old(camera) == null
    {
      var node := new Object3D(sceneNodeId);
      threeScene := node;
      base.SetObject3D(node);
      warned := UpdateCamera(defaultCameraId);
    }

    /** `componentDidUpdate()`: the camera rule is applied again. */
    method ComponentDidUpdate(defaultCameraId: nat) returns (warned: bool)
      modifies this`camera
      ensures camera != null
      ensures base.props.camera.Some? ==> camera == base.props.camera.value && !warned
      ensures base.props.camera.None? && old(camera) != null ==> camera == old(camera) && !warned
      ensures base.props.camera.None? && old(camera) == null ==> fresh(camera) && camera.id == defaultCameraId && warned
    {
      warned := UpdateCamera(defaultCameraId);
    }

    /**
     * `componentWillUnmount()`: the component's own unmount runs first (its
     * node leaves the index), then the raycaster lets go of the scene, then
     * the camera and the scene node are dropped.
     */
    method ComponentWillUnmount()
      requires Wired()
      modifies base`object3D, base.Obj()`component, raycaster`octree, raycaster`scene, this`camera, this`threeScene
      ensures base.object3D == null && raycaster.scene == null && camera == null && threeScene == null
      ensures old(base.object3D) != null ==> old(base.object3D).component.None?
      ensures old(base.object3D) != null && old(base.IndexAgrees()) ==> !raycaster.octree.Tracks(old(base.object3D))
      ensures old(base.object3D) != null && old(base.object3D.component).Some? ==>
        raycaster.octree == OctreeRemove(old(raycaster.octree), old(base.object3D))
      ensures old(base.object3D) == null || old(base.object3D.component).None? ==> raycaster.octree == old(raycaster.octree)
      ensures raycaster.octree.Tracked() - old(base.Obj()) == old(raycaster.octree.Tracked()) - old(base.Obj())
    {
      base.ComponentWillUnmount();
      raycaster.Dispose();
      camera := null;
      threeScene := null;
    }

    /**
     * `OnBeforeUpdate(timestamp)`: the raycaster's per-frame hook runs only
     * for a truthy timestamp. That hook does nothing, so only whether it ran is
     * reported.
     */
    method OnBeforeUpdate(timestamp: Option<real>) returns (raycasterNotified: bool)
      ensures raycasterNotified <==> timestamp.Some? && timestamp.value != 0.0
    {
      raycasterNotified := TruthyReal(timestamp);
    }

    /**
     * `OnUpdate(timestamp)`: for a truthy timestamp the frame time moves to it
     * and the whole tree is updated; for 0 or none nothing happens.
     */
    method OnUpdate(timestamp: Option<real>) returns (visited: seq<ComponentId>)
      requires time.Valid() && base.Ranked()
      modifies time
      ensures time.Valid()
      ensures TruthyReal(timestamp) ==>
        && time.history == old(time.history) + [timestamp.value]
        && time.current == timestamp.value
        && time.delta == timestamp.value - old(time.current)
        && visited == UpdateOrder(base)
      ensures !TruthyReal(timestamp) ==>
        visited == [] && time.history == old(time.history) && time.current == old(time.current) && time.delta == old(time.delta)
    {
      visited := [];
      if TruthyReal(timestamp) {
        time.SetCurrent(timestamp.value);
        visited := base.Update();
      }
    }

    /** `OnPostRender()`: the raycaster refreshes its index. */
    method OnPostRender()
      modifies raycaster`octree
      ensures raycaster.octree == OctreeUpdate(old(raycaster.octree))
      ensures raycaster.octree.pending == {} && raycaster.octree.indexed == old(raycaster.octree.Tracked())
    {
      raycaster.OnPostRender();
    }
  }
}
