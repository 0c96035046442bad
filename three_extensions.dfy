/**
 * Render-order groups: an optional integer layer tag on a native node,
 * assigned or cleared on one node or on its whole subtree.
 */
module ThreeExtensions {
  import opened Wrappers
  import opened Native

  /** JavaScript truthiness of an optional number: absent and `0` are falsy. */
  predicate Truthy(g: Option<int>)
  {
    g.Some? && g.value != 0
  }

  /** `getRenderOrderGroup(o)`: the node's current group, `None` when none is stored. */
  function GetRenderOrderGroup(o: Object3D): Option<int>
    reads o`renderOrderGroup
  {
    o.renderOrderGroup
  }

  /**
   * The group a node holds after `setRenderOrderGroup` with `g` visits it, given
   * the group it held before: a truthy `g` is stored; otherwise a truthy stored
   * group is deleted and a falsy one is left as it is.
   */
  function StoredGroup(g: Option<int>, current: Option<int>): (r: Option<int>)
    ensures Truthy(g) ==> r == g
    ensures !Truthy(g) ==> !Truthy(r)
    ensures !Truthy(g) && current != Some(0) ==> r == None
    ensures r != Some(0) || current == Some(0)
  {
    if Truthy(g) then g
    else if Truthy(current) then None
    else current
  }

  /** Visiting a node a second time with the same argument changes nothing. */
  lemma StoredGroupIdempotent(g: Option<int>, current: Option<int>)
    ensures StoredGroup(g, StoredGroup(g, current)) == StoredGroup(g, current)
  {
  }

  /** The new group does not depend on the old one except when clearing a falsy one. */
  lemma StoredGroupOverwrites(g: Option<int>, a: Option<int>, b: Option<int>)
    requires Truthy(g) || (a != Some(0) && b != Some(0))
    ensures StoredGroup(g, a) == StoredGroup(g, b)
  {
  }

  /** The nodes one call may change: the node itself, and with `recursive` its subtree. */
  ghost function Reach(o: Object3D, recursive: bool): set<Object3D>
    reads o`subtree
  {
    if recursive then o.subtree + {o} else {o}
  }

  /**
   * `setRenderOrderGroup(o, g, recursive)`: every node the call reaches holds
   * `StoredGroup(g, old group)` afterwards. With `recursive` the whole subtree is
   * reached, through the children in order. The modifies clause is the frame:
   * no node outside `Reach(o, recursive)` and no other field changes.
   */
  method SetRenderOrderGroup(o: Object3D, g: Option<int>, recursive: bool)
    requires recursive ==> o.Valid()
    modifies Reach(o, recursive)`renderOrderGroup
    ensures forall n :: n in Reach(o, recursive) ==> n.renderOrderGroup == StoredGroup(g, old(n.renderOrderGroup))
    decreases o.subtree, 1
  {
    if Truthy(g) {
      o.renderOrderGroup := g;
    } else if Truthy(o.renderOrderGroup) {
      o.renderOrderGroup := None;
    }

    if recursive {
      label Own:
      SetDescendantGroups(o, g);
      forall n | n in Reach(o, recursive)
        ensures n.renderOrderGroup == StoredGroup(g, old(n.renderOrderGroup))
      {
        if n == o {
          StoredGroupIdempotent(g, old(n.renderOrderGroup));
        }
      }
    }
  }

  /** The recursive part of `setRenderOrderGroup`: the call on each child in turn. */
  method SetDescendantGroups(o: Object3D, g: Option<int>)
    requires o.Valid()
    modifies o.subtree`renderOrderGroup
    ensures forall n :: n in o.subtree ==>
      n.renderOrderGroup == (if n in Object3D.Subtrees(o.children) then StoredGroup(g, old(n.renderOrderGroup)) else old(n.renderOrderGroup))
    decreases o.subtree, 0
  {
    var children := o.children;
    ghost var done := {};
    for i := 0 to |children|
      invariant o.Valid() && children == o.children
      invariant done == Object3D.Subtrees(children[..i])
      invariant forall n :: n in o.subtree ==>
        n.renderOrderGroup == (if n in done then StoredGroup(g, old(n.renderOrderGroup)) else old(n.renderOrderGroup))
    {
      var c := children[i];
      ChildBelow(o, c);
      SubtreesSnoc(children, i);
      label Before:
      SetRenderOrderGroup(c, g, true);
      forall n | n in o.subtree
        ensures n.renderOrderGroup ==
          (if n in done + c.subtree then StoredGroup(g, old(n.renderOrderGroup)) else old(n.renderOrderGroup))
      {
        if n in c.subtree {
          StoredGroupIdempotent(g, old(n.renderOrderGroup));
        } else {
          assert n.renderOrderGroup == old@Before(n.renderOrderGroup);
        }
      }
      done := done + c.subtree;
    }
    assert children[..|children|] == children;
  }

  /**
   * `getRenderOrderGroup` right after `setRenderOrderGroup(o, g, recursive)`:
   * a truthy `g` reads back as given; otherwise no truthy group is left.
   */
  method GroupReadBack(o: Object3D, g: Option<int>, recursive: bool) returns (r: Option<int>)
    requires recursive ==> o.Valid()
    modifies Reach(o, recursive)`renderOrderGroup
    ensures Truthy(g) ==> r == g
    ensures !Truthy(g) ==> !Truthy(r)
  {
    SetRenderOrderGroup(o, g, recursive);
    r := GetRenderOrderGroup(o);
  }

  lemma SubtreesSnoc(cs: seq<Object3D>, i: nat)
    requires i < |cs|
    ensures Object3D.Subtrees(cs[..i + 1]) == Object3D.Subtrees(cs[..i]) + cs[i].subtree
  {
    assert cs[..i + 1][..i] == cs[..i];
  }

  lemma ChildBelow(o: Object3D, c: Object3D)
    requires o.Valid() && c in o.children
    ensures c in o.subtree && c.subtree <= o.subtree && o !in c.subtree && c.Valid()
  {
  }

  /**
   * Calling `setRenderOrderGroup` twice with the same arguments leaves every
   * node with the group one call gives it.
   */
  method SetRenderOrderGroupTwice(o: Object3D, g: Option<int>, recursive: bool)
    requires recursive ==> o.Valid()
    modifies Reach(o, recursive)`renderOrderGroup
    ensures forall n :: n in Reach(o, recursive) ==> n.renderOrderGroup == StoredGroup(g, old(n.renderOrderGroup))
  {
    SetRenderOrderGroup(o, g, recursive);
    label Once:
    SetRenderOrderGroup(o, g, recursive);
    forall n | n in Reach(o, recursive)
      ensures n.renderOrderGroup == StoredGroup(g, old(n.renderOrderGroup))
    {
      StoredGroupIdempotent(g, old(n.renderOrderGroup));
    }
  }
}
