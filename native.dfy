/**
 * The part of the three.js scene graph that the synchroniser reads and writes.
 * three.js itself is not part of this model: these classes carry only the fields
 * the core touches, and `Add`/`Remove` keep to the library's documented effect on
 * the `children` list.
 */
module Native {
  import opened Wrappers

  /** Handle of a declarative component; a native node stores it as its weak back-reference. */
  type ComponentId = nat

  datatype Vector2 = Vector2(x: real, y: real)
  datatype Vector3 = Vector3(x: real, y: real, z: real)
  datatype Quaternion = Quaternion(x: real, y: real, z: real, w: real)

  /** Geometry and materials are library objects; only their identities matter to the core. */
  datatype Geometry = Geometry(id: nat)
  /** What `new THREE.Mesh()` starts with (an empty buffer geometry). */
  const DefaultGeometry := Geometry(0)

  /** A compiled shader program, known to the material once the renderer has resolved it. */
  datatype Program = Program(id: nat)
  datatype Material = Material(id: nat, transparent: bool, program: Option<Program>)
  /** A mesh's material slot holds one material or an array of them. */
  datatype MeshMaterial = Single(material: Material) | Several(materials: seq<Material>)
  /** What `new THREE.Mesh()` starts with (a basic material). */
  const DefaultMaterial := Single(Material(0, false, None))

  class Camera {
    const id: nat

    constructor (id: nat)
      ensures this.id == id
    {
      this.id := id;
    }
  }

  /** A native scene-graph node (`THREE.Object3D`). */
  class Object3D {
    const id: nat
    var name: Option<string>
    var visible: bool
    var renderOrder: int
    var position: Vector3
    var rotation: Quaternion
    var children: seq<Object3D>
    /** The owning component, set while the node is subscribed for hit testing (the `component` expando). */
    var component: Option<ComponentId>
    /** The `_renderOrderGroup` expando; `None` when the property is absent. */
    var renderOrderGroup: Option<int>
    /** The nodes reachable through `children`, this one included. */
    ghost var subtree: set<Object3D>

    constructor (id: nat)
      ensures this.id == id && name == Some("") && visible && renderOrder == 0
      ensures position == Vector3(0.0, 0.0, 0.0) && rotation == Quaternion(0.0, 0.0, 0.0, 1.0)
      ensures children == [] && component == None && renderOrderGroup == None
      ensures subtree == {this} && Valid()
    {
      this.id := id;
      name := Some("");
      visible := true;
      renderOrder := 0;
      position := Vector3(0.0, 0.0, 0.0);
      rotation := Quaternion(0.0, 0.0, 0.0, 1.0);
      children := [];
      component := None;
      renderOrderGroup := None;
      subtree := {this};
    }

    /** The union of the subtrees of `cs`. */
    static ghost function Subtrees(cs: seq<Object3D>): set<Object3D>
      reads (set c | c in cs)`subtree
      decreases |cs|
    {
      if cs == [] then {} else Subtrees(cs[..|cs| - 1]) + cs[|cs| - 1].subtree
    }

    /**
     * The children form a finite tree below this node and `subtree` is exactly
     * the set of nodes reachable from it. Only the `children` and `subtree`
     * fields are read, so changing any other field of any node keeps it.
     */
    ghost predicate Valid()
      reads this`children, this`subtree, subtree`children, subtree`subtree
      decreases subtree
    {
      && this in subtree
      && (forall c :: c in children ==>
            c in subtree && c.subtree <= subtree && this !in c.subtree && c.Valid())
      && subtree == {this} + Subtrees(children)
    }

    /** `this.add(child)`: the child goes last among the children; adding a node to itself is refused. */
    method Add(child: Object3D)
      modifies this`children
      ensures children == if child == this then old(children) else old(children) + [child]
    {
      if child != this {
        children := children + [child];
      }
    }

    /** `this.remove(child)`: the first occurrence of the child leaves the children. */
    method Remove(child: Object3D)
      modifies this`children
      ensures child !in old(children) ==> children == old(children)
      ensures child in old(children) ==>
        exists i :: (0 <= i < |old(children)| && old(children)[i] == child &&
                     child !in old(children)[..i] && children == old(children)[..i] + old(children)[i + 1..])
    {
      var i := 0;
      while i < |children| && children[i] != child
        invariant 0 <= i <= |children|
        invariant child !in children[..i]
      {
        i := i + 1;
      }
      if i < |children| {
        children := children[..i] + children[i + 1..];
      }
    }
  }

  /** A `THREE.Mesh`: a node with a geometry and a material slot. */
  class Mesh {
    const object3D: Object3D
    var geometry: Option<Geometry>
    var material: MeshMaterial

    constructor (id: nat)
      ensures fresh(object3D) && object3D.id == id && object3D.component == None && object3D.visible
      ensures object3D.children == [] && object3D.Valid()
      ensures object3D.name == Some("") && object3D.renderOrder == 0 && object3D.renderOrderGroup == None
      ensures object3D.position == Vector3(0.0, 0.0, 0.0) && object3D.rotation == Quaternion(0.0, 0.0, 0.0, 1.0)
      ensures geometry == Some(DefaultGeometry) && material == DefaultMaterial
    {
      object3D := new Object3D(id);
      geometry := Some(DefaultGeometry);
      material := DefaultMaterial;
    }
  }
}
