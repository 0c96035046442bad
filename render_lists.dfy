/**
 * The layered draw-order list: a pool of render items reused from frame to
 * frame, split as they are pushed into an opaque and a transparent bucket,
 * each bucket then sorted with a comparator whose most significant key is
 * the render-order group.
 */
module RenderLists {
  import opened Wrappers
  import opened Native
  import ThreeExtensions

  /** `Number.MIN_SAFE_INTEGER`: where an absent or zero group sorts. */
  const MinSafeInteger: int := -9007199254740991

  /** The sub-range of a geometry that one draw call covers. */
  datatype DrawGroup = DrawGroup(start: nat, count: nat, materialIndex: nat)

  /** One draw call: the node, what it is drawn with, its depth and its layer. */
  datatype RenderItem = RenderItem(
    id: nat,
    obj: Object3D,
    geometry: Geometry,
    material: Material,
    program: Option<Program>,
    renderOrder: int,
    z: real,
    group: Option<DrawGroup>,
    renderOrderGroup: Option<int>)

  /** The value `(g || Number.MIN_SAFE_INTEGER)` the comparators subtract. */
  function GroupKey(g: Option<int>): int
  {
    if ThreeExtensions.Truthy(g) then g.value else MinSafeInteger
  }

  /** Comparator of the opaque bucket: negative puts `a` first, positive puts `b` first. */
  function PainterSortStable(a: RenderItem, b: RenderItem): real
  {
    if a.renderOrderGroup != b.renderOrderGroup then (GroupKey(a.renderOrderGroup) - GroupKey(b.renderOrderGroup)) as real
    else if a.renderOrder != b.renderOrder then (a.renderOrder - b.renderOrder) as real
    else if a.program.Some? && b.program.Some? && a.program != b.program then (a.program.value.id - b.program.value.id) as real
    else if a.material.id != b.material.id then (a.material.id - b.material.id) as real
    else if a.z != b.z then a.z - b.z
    else (a.id - b.id) as real
  }

  /** Comparator of the transparent bucket: like the opaque one, but farther (larger `z`) first and no program or material keys. */
  function ReversePainterSortStable(a: RenderItem, b: RenderItem): real
  {
    if a.renderOrderGroup != b.renderOrderGroup then (GroupKey(a.renderOrderGroup) - GroupKey(b.renderOrderGroup)) as real
    else if a.renderOrder != b.renderOrder then (a.renderOrder - b.renderOrder) as real
    else if a.z != b.z then b.z - a.z
    else (a.id - b.id) as real
  }

  /** Which bucket, hence which comparator. */
  datatype Order = Painter | ReversePainter

  function Compare(order: Order, a: RenderItem, b: RenderItem): real
  {
    match order
    case Painter => PainterSortStable(a, b)
    case ReversePainter => ReversePainterSortStable(a, b)
  }

  // ---------------------------------------------------------------------------
  // An independent description of the same orders: lexicographic keys.
  // ---------------------------------------------------------------------------

  /** A group the comparators can tell apart from every other: absent, or neither 0 nor `MIN_SAFE_INTEGER`. */
  predicate GroupOk(g: Option<int>)
  {
    g.None? || (g.value != 0 && g.value != MinSafeInteger)
  }

  /**
   * Two items the comparator orders consistently: both groups distinguishable and,
   * for the opaque order, both programs present or both absent.
   */
  predicate Comparable(order: Order, a: RenderItem, b: RenderItem)
  {
    && GroupOk(a.renderOrderGroup)
    && GroupOk(b.renderOrderGroup)
    && (order == Painter ==> a.program.Some? == b.program.Some?)
  }

  /** Every pair of items in `s` is comparable. */
  predicate Consistent(order: Order, s: seq<RenderItem>)
  {
    forall a, b :: a in s && b in s ==> Comparable(order, a, b)
  }

  function ProgramKey(a: RenderItem): int
  {
    if a.program.Some? then a.program.value.id else 0
  }

  /**
   * The sort key of an item: group (absent as `MIN_SAFE_INTEGER`), render order,
   * then program id, material id, depth and id for the opaque order, or negated
   * depth and id for the transparent one.
   */
  function Key(order: Order, a: RenderItem): seq<real>
  {
    match order
    case Painter =>
      [GroupKey(a.renderOrderGroup) as real, a.renderOrder as real, ProgramKey(a) as real,
       a.material.id as real, a.z, a.id as real]
    case ReversePainter =>
      [GroupKey(a.renderOrderGroup) as real, a.renderOrder as real, -a.z, a.id as real]
  }

  /** Lexicographic comparison of equally long keys: -1, 0 or 1. */
  function LexCompare(x: seq<real>, y: seq<real>): int
    requires |x| == |y|
  {
    if x == [] then 0
    else if x[0] < y[0] then -1
    else if x[0] > y[0] then 1
    else LexCompare(x[1..], y[1..])
  }

  function Sign(r: real): int
  {
    if r < 0.0 then -1 else if r > 0.0 then 1 else 0
  }

  lemma GroupKeyInjective(g: Option<int>, h: Option<int>)
    requires GroupOk(g) && GroupOk(h) && g != h
    ensures GroupKey(g) != GroupKey(h)
  {
  }

  /**
   * On comparable items each comparator agrees in sign with the lexicographic
   * order of the keys: it is exactly that order.
   */
  lemma CompareMatchesKey(order: Order, a: RenderItem, b: RenderItem)
    requires Comparable(order, a, b)
    ensures Sign(Compare(order, a, b)) == LexCompare(Key(order, a), Key(order, b))
  {
    var ka, kb := Key(order, a), Key(order, b);
    if a.renderOrderGroup != b.renderOrderGroup {
      GroupKeyInjective(a.renderOrderGroup, b.renderOrderGroup);
    } else if a.renderOrder == b.renderOrder {
      assert LexCompare(ka, kb) == LexCompare(ka[2..], kb[2..]) by {
        assert ka[1..][1..] == ka[2..] && kb[1..][1..] == kb[2..];
      }
      match order
      case Painter =>
        if ProgramKey(a) == ProgramKey(b) {
          assert LexCompare(ka[2..], kb[2..]) == LexCompare(ka[3..], kb[3..]) by {
            assert ka[2..][1..] == ka[3..] && kb[2..][1..] == kb[3..];
          }
          if a.material.id == b.material.id {
            assert LexCompare(ka[3..], kb[3..]) == LexCompare(ka[4..], kb[4..]) by {
              assert ka[3..][1..] == ka[4..] && kb[3..][1..] == kb[4..];
            }
            if a.z == b.z {
              assert LexCompare(ka[4..], kb[4..]) == LexCompare(ka[5..], kb[5..]) by {
                assert ka[4..][1..] == ka[5..] && kb[4..][1..] == kb[5..];
              }
              assert LexCompare(ka[5..][1..], kb[5..][1..]) == 0;
            }
          }
        }
      case ReversePainter =>
        if a.z == b.z {
          assert LexCompare(ka[2..], kb[2..]) == LexCompare(ka[3..], kb[3..]) by {
            assert ka[2..][1..] == ka[3..] && kb[2..][1..] == kb[3..];
          }
          assert LexCompare(ka[3..][1..], kb[3..][1..]) == 0;
        }
    }
  }

  lemma {:induction false} LexAntisymmetric(x: seq<real>, y: seq<real>)
    requires |x| == |y|
    ensures LexCompare(x, y) == -LexCompare(y, x)
    ensures LexCompare(x, y) == 0 <==> x == y
  {
    if x != [] && x[0] == y[0] {
      LexAntisymmetric(x[1..], y[1..]);
      if x[1..] == y[1..] {
        assert x == [x[0]] + x[1..] && y == [y[0]] + y[1..];
      }
    }
  }

  lemma {:induction false} LexTransitive(x: seq<real>, y: seq<real>, w: seq<real>)
    requires |x| == |y| == |w|
    requires LexCompare(x, y) <= 0 && LexCompare(y, w) <= 0
    ensures LexCompare(x, w) <= 0
  {
    if x != [] && x[0] == y[0] && y[0] == w[0] {
      LexTransitive(x[1..], y[1..], w[1..]);
    }
  }

  /** Comparable items that compare equal are the same item for the key's fields. */
  lemma CompareTotal(order: Order, a: RenderItem, b: RenderItem)
    requires Comparable(order, a, b)
    ensures Compare(order, a, b) > 0.0 <==> Compare(order, b, a) < 0.0
    ensures Compare(order, a, b) == 0.0 <==> Key(order, a) == Key(order, b)
  {
    CompareMatchesKey(order, a, b);
    CompareMatchesKey(order, b, a);
    LexAntisymmetric(Key(order, a), Key(order, b));
  }

  lemma CompareTransitive(order: Order, a: RenderItem, b: RenderItem, c: RenderItem)
    requires Comparable(order, a, b) && Comparable(order, b, c) && Comparable(order, a, c)
    requires Compare(order, a, b) <= 0.0 && Compare(order, b, c) <= 0.0
    ensures Compare(order, a, c) <= 0.0
  {
    CompareMatchesKey(order, a, b);
    CompareMatchesKey(order, b, c);
    CompareMatchesKey(order, a, c);
    LexTransitive(Key(order, a), Key(order, b), Key(order, c));
  }

  // ---------------------------------------------------------------------------
  // `Array.prototype.sort`: a stable sort by the comparator.
  // ---------------------------------------------------------------------------

  /** No later item compares below an earlier one. */
  predicate Sorted(order: Order, s: seq<RenderItem>)
  {
    forall i, j :: 0 <= i < j < |s| ==> Compare(order, s[i], s[j]) <= 0.0
  }

  /** `x` goes after every leading item that does not compare above it. */
  function Insert(order: Order, s: seq<RenderItem>, x: RenderItem): seq<RenderItem>
  {
    if s == [] then [x]
    else if Compare(order, s[0], x) <= 0.0 then [s[0]] + Insert(order, s[1..], x)
    else [x] + s
  }

  /** The bucket as `sort` leaves it. */
  function SortBy(order: Order, s: seq<RenderItem>): seq<RenderItem>
  {
    if s == [] then [] else Insert(order, SortBy(order, s[..|s| - 1]), s[|s| - 1])
  }

  lemma {:induction false} InsertPermutes(order: Order, s: seq<RenderItem>, x: RenderItem)
    ensures multiset(Insert(order, s, x)) == multiset(s) + multiset{x}
  {
    if s != [] && Compare(order, s[0], x) <= 0.0 {
      InsertPermutes(order, s[1..], x);
      assert s == [s[0]] + s[1..];
    }
  }

  /** Sorting rearranges the bucket: the same items, each as often. */
  lemma {:induction false} SortPermutes(order: Order, s: seq<RenderItem>)
    ensures multiset(SortBy(order, s)) == multiset(s)
  {
    if s != [] {
      SortPermutes(order, s[..|s| - 1]);
      InsertPermutes(order, SortBy(order, s[..|s| - 1]), s[|s| - 1]);
      assert s == s[..|s| - 1] + [s[|s| - 1]];
    }
  }

  /** An item that compares at or below every item of a sorted bucket can go in front of it. */
  lemma SortedCons(order: Order, a: RenderItem, r: seq<RenderItem>)
    requires Sorted(order, r)
    requires forall j :: 0 <= j < |r| ==> Compare(order, a, r[j]) <= 0.0
    ensures Sorted(order, [a] + r)
  {
    var u := [a] + r;
    forall i, j | 0 <= i < j < |u| ensures Compare(order, u[i], u[j]) <= 0.0 {
      assert u[j] == r[j - 1];
      if i > 0 { assert u[i] == r[i - 1]; }
    }
  }

  lemma {:induction false} InsertSorted(order: Order, s: seq<RenderItem>, x: RenderItem)
    requires Sorted(order, s) && Consistent(order, s + [x])
    ensures Sorted(order, Insert(order, s, x))
  {
    if s == [] {
    } else if Compare(order, s[0], x) <= 0.0 {
      var t := s[1..];
      assert Consistent(order, t + [x]) by {
        forall a | a in t + [x] ensures a in s + [x] {
          if a in t { assert a in s; }
        }
      }
      InsertSorted(order, t, x);
      var r := Insert(order, t, x);
      InsertPermutes(order, t, x);
      forall j | 0 <= j < |r| ensures Compare(order, s[0], r[j]) <= 0.0 {
        assert r[j] in multiset(r);
        if r[j] != x {
          assert r[j] in multiset(t);
          var k :| 0 <= k < |t| && t[k] == r[j];
          assert t[k] == s[k + 1];
        }
      }
      SortedCons(order, s[0], r);
    } else {
      assert s[0] in s + [x] && x in s + [x];
      CompareTotal(order, s[0], x);
      forall j | 0 <= j < |s| ensures Compare(order, x, s[j]) <= 0.0 {
        if j > 0 {
          assert s[j] in s + [x];
          CompareTransitive(order, x, s[0], s[j]);
        }
      }
      SortedCons(order, x, s);
    }
  }

  lemma {:induction false} SortSorted(order: Order, s: seq<RenderItem>)
    requires Consistent(order, s)
    ensures Sorted(order, SortBy(order, s))
  {
    if s != [] {
      var p, x := s[..|s| - 1], s[|s| - 1];
      assert Consistent(order, p) by {
        forall a | a in p ensures a in s { }
      }
      SortSorted(order, p);
      SortPermutes(order, p);
      var sp := SortBy(order, p);
      assert Consistent(order, sp + [x]) by {
        forall a | a in sp + [x] ensures a in s {
          if a in sp {
            assert a in multiset(sp);
          }
        }
      }
      InsertSorted(order, sp, x);
    }
  }

  /**
   * A sorted bucket of comparable items is in ascending key order:
   * for the opaque bucket group, render order, program, material, depth, id;
   * for the transparent one group, render order, depth descending, id.
   */
  lemma SortedByKey(order: Order, s: seq<RenderItem>, i: int, j: int)
    requires Sorted(order, s) && Consistent(order, s) && 0 <= i < j < |s|
    ensures LexCompare(Key(order, s[i]), Key(order, s[j])) <= 0
  {
    assert s[i] in s && s[j] in s;
    CompareMatchesKey(order, s[i], s[j]);
  }

  /** In a sorted bucket of comparable items, groups never decrease. */
  lemma GroupsAscend(order: Order, s: seq<RenderItem>, i: int, j: int)
    requires Sorted(order, s) && Consistent(order, s) && 0 <= i < j < |s|
    ensures GroupKey(s[i].renderOrderGroup) <= GroupKey(s[j].renderOrderGroup)
  {
    assert s[i] in s && s[j] in s;
    if s[i].renderOrderGroup != s[j].renderOrderGroup {
      assert Compare(order, s[i], s[j]) <= 0.0;
    }
  }

  /**
   * An ungrouped item comes before every item whose group is a safe integer,
   * whatever their depths: layers are drawn in group order.
   */
  lemma UngroupedFirst(order: Order, s: seq<RenderItem>, i: int, j: int)
    requires Sorted(order, s) && Consistent(order, s) && 0 <= i < |s| && 0 <= j < |s|
    requires s[i].renderOrderGroup == None
    requires s[j].renderOrderGroup.Some? && s[j].renderOrderGroup.value > MinSafeInteger
    ensures i < j
  {
    if j < i {
      assert s[j] in s;
      GroupsAscend(order, s, j, i);
    }
  }

  /** In the sorted transparent bucket, among items of one group and render order the farther one comes first. */
  lemma FartherFirst(s: seq<RenderItem>, i: int, j: int)
    requires Sorted(ReversePainter, s) && 0 <= i < j < |s|
    requires s[i].renderOrderGroup == s[j].renderOrderGroup && s[i].renderOrder == s[j].renderOrder
    ensures s[i].z >= s[j].z
  {
    assert Compare(ReversePainter, s[i], s[j]) <= 0.0;
  }

  /** Sorting leaves at most one item where it is. */
  lemma SortShort(order: Order, s: seq<RenderItem>)
    requires |s| <= 1
    ensures SortBy(order, s) == s
  {
    if |s| == 1 {
      assert s[..0] == [];
    }
  }

  // ---------------------------------------------------------------------------
  // The list itself.
  // ---------------------------------------------------------------------------

  /** The item `push` writes for a node, a geometry, a material, a depth and a draw group. */
  function ItemFor(obj: Object3D, geometry: Geometry, material: Material, z: real, group: Option<DrawGroup>): RenderItem
    reads obj`renderOrder, obj`renderOrderGroup
  {
    RenderItem(obj.id, obj, geometry, material, material.program, obj.renderOrder,
               z, group, ThreeExtensions.GetRenderOrderGroup(obj))
  }

  /** What `sort()` does to one bucket: a bucket of more than one item is sorted, a shorter one kept. */
  lemma SortBucket(order: Order, s: seq<RenderItem>)
    ensures var r := if |s| > 1 then SortBy(order, s) else s;
      multiset(r) == multiset(s) && (Consistent(order, s) ==> Sorted(order, r))
  {
    if |s| > 1 {
      SortPermutes(order, s);
      if Consistent(order, s) {
        SortSorted(order, s);
      }
    }
  }

  class WebGLRenderList {
    /** The pool; slots below the cursor hold this frame's items. */
    var renderItems: seq<RenderItem>
    var renderItemsIndex: nat
    var opaqueItems: seq<RenderItem>
    var transparentItems: seq<RenderItem>

    /**
     * The cursor stays inside the pool, the two buckets together hold exactly
     * this frame's items, and each item sits in the bucket its material picks.
     */
    ghost predicate Valid()
      reads this
    {
      && renderItemsIndex <= |renderItems|
      && multiset(opaqueItems) + multiset(transparentItems) == multiset(renderItems[..renderItemsIndex])
      && (forall it :: it in opaqueItems ==> !it.material.transparent)
      && (forall it :: it in transparentItems ==> it.material.transparent)
    }

    constructor ()
      ensures Valid()
      ensures renderItems == [] && renderItemsIndex == 0 && opaqueItems == [] && transparentItems == []
    {
      renderItems := [];
      renderItemsIndex := 0;
      opaqueItems := [];
      transparentItems := [];
    }

    /** `init()`: a new frame; the pool is kept for reuse. */
    method Init()
      modifies this
      ensures Valid()
      ensures renderItemsIndex == 0 && opaqueItems == [] && transparentItems == []
      ensures renderItems == old(renderItems)
    {
      renderItemsIndex := 0;
      opaqueItems := [];
      transparentItems := [];
    }

    /**
     * `push(...)`: the slot at the cursor is overwritten, or appended when the
     * pool ends there; the item joins the end of exactly one bucket; the cursor
     * moves on by one.
     */
    method Push(obj: Object3D, geometry: Geometry, material: Material, z: real, group: Option<DrawGroup>)
      requires Valid()
      modifies this
      ensures Valid()
      ensures renderItemsIndex == old(renderItemsIndex) + 1
      ensures old(renderItemsIndex) < |old(renderItems)| ==>
        renderItems == old(renderItems)[old(renderItemsIndex) := ItemFor(obj, geometry, material, z, group)]
      ensures old(renderItemsIndex) == |old(renderItems)| ==>
        renderItems == old(renderItems) + [ItemFor(obj, geometry, material, z, group)]
      ensures material.transparent ==>
        transparentItems == old(transparentItems) + [ItemFor(obj, geometry, material, z, group)] && opaqueItems == old(opaqueItems)
      ensures !material.transparent ==>
        opaqueItems == old(opaqueItems) + [ItemFor(obj, geometry, material, z, group)] && transparentItems == old(transparentItems)
    {
      var item := ItemFor(obj, geometry, material, z, group);
      AddToPool(item);
      if material.transparent {
        assert forall it :: it in transparentItems + [item] ==> it in transparentItems || it == item;
        transparentItems := transparentItems + [item];
      } else {
        assert forall it :: it in opaqueItems + [item] ==> it in opaqueItems || it == item;
        opaqueItems := opaqueItems + [item];
      }
    }

    /** The pool half of `push`: the slot at the cursor holds `item` and the cursor moves on. */
    method AddToPool(item: RenderItem)
      requires renderItemsIndex <= |renderItems|
      modifies this`renderItems, this`renderItemsIndex
      ensures renderItemsIndex == old(renderItemsIndex) + 1 <= |renderItems|
      ensures renderItems == if old(renderItemsIndex) < |old(renderItems)|
                             then old(renderItems)[old(renderItemsIndex) := item]
                             else old(renderItems) + [item]
      ensures multiset(renderItems[..renderItemsIndex]) == multiset(old(renderItems)[..old(renderItemsIndex)]) + multiset{item}
    {
      if renderItemsIndex == |renderItems| {
        renderItems := renderItems + [item];
      } else {
        renderItems := renderItems[renderItemsIndex := item];
      }
      assert renderItems[..renderItemsIndex + 1] == old(renderItems)[..renderItemsIndex] + [item];
      renderItemsIndex := renderItemsIndex + 1;
    }

    /**
     * `sort()`: each bucket with more than one item is sorted by its comparator;
     * nothing moves between buckets and the pool is left alone.
     */
    method Sort()
      requires Valid()
      modifies this
      ensures Valid()
      ensures renderItems == old(renderItems) && renderItemsIndex == old(renderItemsIndex)
      ensures opaqueItems == if |old(opaqueItems)| > 1 then SortBy(Painter, old(opaqueItems)) else old(opaqueItems)
      ensures transparentItems == if |old(transparentItems)| > 1 then SortBy(ReversePainter, old(transparentItems)) else old(transparentItems)
      ensures multiset(opaqueItems) == multiset(old(opaqueItems)) && multiset(transparentItems) == multiset(old(transparentItems))
      ensures Consistent(Painter, old(opaqueItems)) ==> Sorted(Painter, opaqueItems)
      ensures Consistent(ReversePainter, old(transparentItems)) ==> Sorted(ReversePainter, transparentItems)
    {
      SortBucket(Painter, opaqueItems);
      SortBucket(ReversePainter, transparentItems);
      if |opaqueItems| > 1 {
        opaqueItems := SortBy(Painter, opaqueItems);
      }
      if |transparentItems| > 1 {
        transparentItems := SortBy(ReversePainter, transparentItems);
      }
      assert forall it :: it in opaqueItems ==> it in multiset(old(opaqueItems));
      assert forall it :: it in transparentItems ==> it in multiset(old(transparentItems));
    }
  }
}
