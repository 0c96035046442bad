/**
 * The bookkeeping every component of the library shares: child slots keyed by
 * position, one bound ref callback per slot, the user's own refs forwarded,
 * and the registered child components in insertion order.
 */
module Components {
  import opened Wrappers

  // ---------------------------------------------------------------------------
  // Slot keys
  // ---------------------------------------------------------------------------

  function DigitChar(d: nat): char
    requires d < 10
  {
    "0123456789"[d]
  }

  /** The decimal numeral of `n`, as a template literal prints it. */
  function Decimal(n: nat): (r: string)
    ensures |r| >= 1
    ensures n >= 10 ==> |r| >= 2
  {
    if n < 10 then [DigitChar(n)] else Decimal(n / 10) + [DigitChar(n % 10)]
  }

  lemma DigitCharInjective(a: nat, b: nat)
    requires a < 10 && b < 10 && DigitChar(a) == DigitChar(b)
    ensures a == b
  {
  }

  lemma {:induction false} DecimalInjective(a: nat, b: nat)
    requires Decimal(a) == Decimal(b)
    ensures a == b
  {
    var da, db := Decimal(a), Decimal(b);
    if a < 10 && b < 10 {
      DigitCharInjective(a, b);
    } else if a >= 10 && b >= 10 {
      assert da[|da| - 1] == DigitChar(a % 10) && db[|db| - 1] == DigitChar(b % 10);
      DigitCharInjective(a % 10, b % 10);
      assert da[..|da| - 1] == Decimal(a / 10) && db[..|db| - 1] == Decimal(b / 10);
      DecimalInjective(a / 10, b / 10);
    }
  }

  /** The key of the child at position `i`: `index[i]`. */
  function SlotKey(i: nat): string
  {
    "index[" + Decimal(i) + "]"
  }

  /** Different positions never share a slot. */
  lemma SlotKeyInjective(i: nat, j: nat)
    ensures SlotKey(i) == SlotKey(j) <==> i == j
  {
    if SlotKey(i) == SlotKey(j) {
      var ki, kj := SlotKey(i), SlotKey(j);
      assert |Decimal(i)| == |Decimal(j)|;
      assert Decimal(i) == ki[6..|ki| - 1] && Decimal(j) == kj[6..|kj| - 1];
      DecimalInjective(i, j);
    }
  }

  // ---------------------------------------------------------------------------
  // Children and refs
  // ---------------------------------------------------------------------------

  /**
   * A ref on an element: none, a callback of the user's (by identity), or the
   * component's own bound `onRef` for a slot (by identity, with its key).
   */
  datatype Ref = NoRef | Callback(id: nat) | BoundOnRef(serial: nat, key: string)

  /** A child node: an element (an object) or anything else the tree may hold. */
  datatype Child = Element(kind: nat, ref: Ref) | Text(text: string) | Number(n: int) | Nothing

  /** What `onRef` asks the owning component to do after updating the registry. */
  datatype Event<C> = Mounted(mounted: C) | Unmounted(unmounted: C) | NoEvent

  /** `keys` without `k`. */
  function Without(keys: seq<string>, k: string): (r: seq<string>)
    ensures forall x :: x in r <==> x in keys && x != k
    ensures |r| <= |keys|
  {
    if keys == [] then []
    else if keys[0] == k then Without(keys[1..], k)
    else [keys[0]] + Without(keys[1..], k)
  }

  predicate NoDuplicates(keys: seq<string>)
  {
    forall i, j :: 0 <= i < j < |keys| ==> keys[i] != keys[j]
  }

  /** Removing a key from a list without duplicates leaves a list without duplicates. */
  lemma {:induction false} WithoutNoDuplicates(keys: seq<string>, k: string)
    requires NoDuplicates(keys)
    ensures NoDuplicates(Without(keys, k))
  {
    if keys != [] {
      var t := keys[1..];
      assert NoDuplicates(t);
      WithoutNoDuplicates(t, k);
      var r := Without(keys, k);
      if keys[0] != k {
        assert r == [keys[0]] + Without(t, k);
        assert keys[0] !in t;
        forall i, j | 0 <= i < j < |r| ensures r[i] != r[j] {
          if i == 0 {
            assert r[j] in Without(t, k);
          } else {
            assert r[i] == Without(t, k)[i - 1] && r[j] == Without(t, k)[j - 1];
          }
        }
      }
    }
  }

  /** The one occurrence of the key is cut out and the others keep their order. */
  lemma {:induction false} WithoutKeepsOrder(keys: seq<string>, k: string)
    requires NoDuplicates(keys)
    ensures k in keys ==> exists i :: 0 <= i < |keys| && keys[i] == k && Without(keys, k) == keys[..i] + keys[i + 1..]
    ensures k !in keys ==> Without(keys, k) == keys
  {
    if keys != [] {
      var t := keys[1..];
      assert NoDuplicates(t);
      WithoutKeepsOrder(t, k);
      if keys[0] == k {
        assert k !in t;
        assert Without(keys, k) == keys[..0] + keys[0 + 1..];
      } else if k in t {
        var i :| 0 <= i < |t| && t[i] == k && Without(t, k) == t[..i] + t[i + 1..];
        assert Without(keys, k) == [keys[0]] + (t[..i] + t[i + 1..]);
        assert [keys[0]] + (t[..i] + t[i + 1..]) == keys[..i + 1] + keys[i + 2..];
        assert keys[i + 1] == k && Without(keys, k) == keys[..i + 1] + keys[(i + 1) + 1..];
      } else {
        assert [keys[0]] + t == keys;
      }
    }
  }

  /** `m[key]`, undefined as `NoRef`. */
  function RefOr(m: map<string, Ref>, key: string): Ref
  {
    if key in m then m[key] else NoRef
  }

  /**
   * The first `n` children as `connectChildren` leaves them, with `refs`
   * grown from `start` only by the slots of those children, and the saved refs
   * changed from `oldStart` only at those slots.
   */
  ghost predicate SlotsConnected(children: seq<Child>, out: seq<Child>, n: nat, start: map<string, Ref>,
                                 refs: map<string, Ref>, oldStart: map<string, Ref>, oldRefs: map<string, Ref>)
  {
    && n <= |children| && |out| == n
    && (forall j :: 0 <= j < n && !children[j].Element? ==> out[j] == children[j])
    && (forall j :: 0 <= j < n && children[j].Element? ==>
          && SlotKey(j) in refs
          && out[j] == children[j].(ref := refs[SlotKey(j)])
          && RefOr(oldRefs, SlotKey(j)) == children[j].ref)
    && (forall k :: k in start ==> k in refs && refs[k] == start[k])
    && (forall k :: k in refs ==> k in start || exists j :: 0 <= j < n && children[j].Element? && k == SlotKey(j))
    && (forall k :: (forall j :: 0 <= j < n && children[j].Element? ==> k != SlotKey(j)) ==>
          RefOr(oldRefs, k) == RefOr(oldStart, k))
  }

  /** One more child connected by the callback extends the connected prefix. */
  lemma ConnectedStep(children: seq<Child>, out: seq<Child>, i: nat, start: map<string, Ref>, oldStart: map<string, Ref>,
                      refs0: map<string, Ref>, oldRefs0: map<string, Ref>,
                      c: Child, refs1: map<string, Ref>, oldRefs1: map<string, Ref>)
    requires SlotsConnected(children, out, i, start, refs0, oldStart, oldRefs0) && i < |children|
    requires forall k :: k in refs0 ==> k in refs1 && refs1[k] == refs0[k]
    requires forall k :: k in refs1 ==> k in refs0 || (children[i].Element? && k == SlotKey(i))
    requires forall k :: k != SlotKey(i) ==> RefOr(oldRefs1, k) == RefOr(oldRefs0, k)
    requires !children[i].Element? ==> c == children[i] && oldRefs1 == oldRefs0
    requires children[i].Element? ==>
      SlotKey(i) in refs1 && c == children[i].(ref := refs1[SlotKey(i)]) && RefOr(oldRefs1, SlotKey(i)) == children[i].ref
    ensures SlotsConnected(children, out + [c], i + 1, start, refs1, oldStart, oldRefs1)
  {
    forall j | 0 <= j < i
      ensures SlotKey(j) != SlotKey(i)
    {
      SlotKeyInjective(j, i);
    }
  }

  /**
   * The registry a component keeps of its children (`m_components`, `m_refs`,
   * `m_oldRefs`). `keys` is the insertion order of `m_components`, the order a
   * `for ... in` loop walks, since slot keys are never integer-like.
   */
  class ComponentRegistry<C(==)> {
    var keys: seq<string>
    var components: map<string, C>
    /** The bound `onRef` callback made for each slot, by identity. */
    var refs: map<string, Ref>
    /** Identity of the next bound callback. */
    var nextSerial: nat
    /** The ref each slot's element carried before it was replaced. */
    var oldRefs: map<string, Ref>

    ghost predicate Valid()
      reads this
    {
      && NoDuplicates(keys)
      && (forall k :: k in components <==> k in keys)
      && (forall k :: k in refs ==> refs[k].BoundOnRef? && refs[k].key == k && refs[k].serial < nextSerial)
    }

    constructor ()
      ensures Valid()
      ensures keys == [] && components == map[] && refs == map[] && oldRefs == map[]
    {
      keys := [];
      components := map[];
      refs := map[];
      nextSerial := 0;
      oldRefs := map[];
    }

    /** `m_oldRefs[key]`, undefined as `NoRef`. */
    function OldRef(key: string): Ref
      reads this
    {
      RefOr(oldRefs, key)
    }

    /**
     * `connectChildren`: every element child gets its slot's bound ref (made
     * once per slot and reused), and the ref it carried is remembered for the
     * slot; every other child passes through unchanged.
     */
    method ConnectChildren(children: seq<Child>) returns (out: seq<Child>)
      requires Valid()
      modifies this`refs, this`nextSerial, this`oldRefs
      ensures Valid()
      ensures |out| == |children|
      ensures forall i :: 0 <= i < |children| && !children[i].Element? ==> out[i] == children[i]
      ensures forall i :: 0 <= i < |children| && children[i].Element? ==>
        && SlotKey(i) in refs
        && out[i] == children[i].(ref := refs[SlotKey(i)])
        && OldRef(SlotKey(i)) == children[i].ref
      ensures forall k :: k in old(refs) ==> k in refs && refs[k] == old(refs)[k]
      ensures forall k :: k in refs ==> k in old(refs) || exists i :: 0 <= i < |children| && children[i].Element? && k == SlotKey(i)
      ensures forall k :: (forall i :: 0 <= i < |children| && children[i].Element? ==> k != SlotKey(i)) ==>
        OldRef(k) == old(OldRef(k))
    {
      out := [];
      for i := 0 to |children|
        invariant Valid()
        invariant SlotsConnected(children, out, i, old(refs), refs, old(oldRefs), oldRefs)
      {
        ghost var refs0, oldRefs0 := refs, oldRefs;
        var c := ConnectChild(i, children[i]);
        ConnectedStep(children, out, i, old(refs), old(oldRefs), refs0, oldRefs0, c, refs, oldRefs);
        out := out + [c];
      }
    }

    /** The body of the `connectChildren` callback for the child at position `i`. */
    method ConnectChild(i: nat, child: Child) returns (out: Child)
      requires Valid()
      modifies this`refs, this`nextSerial, this`oldRefs
      ensures Valid()
      ensures !child.Element? ==> out == child && refs == old(refs) && oldRefs == old(oldRefs)
      ensures child.Element? ==>
        && SlotKey(i) in refs
        && (SlotKey(i) in old(refs) ==> refs == old(refs))
        && (SlotKey(i) !in old(refs) ==> refs == old(refs)[SlotKey(i) := BoundOnRef(old(nextSerial), SlotKey(i))])
        && out == child.(ref := refs[SlotKey(i)])
        && OldRef(SlotKey(i)) == child.ref
      ensures forall k :: k != SlotKey(i) ==> RefOr(oldRefs, k) == RefOr(old(oldRefs), k)
      ensures forall k :: k in old(refs) ==> k in refs && refs[k] == old(refs)[k]
      ensures forall k :: k in refs ==> k in old(refs) || (child.Element? && k == SlotKey(i))
    {
      out := child;
      if child.Element? {
        var key := SlotKey(i);
        if OldRef(key) != child.ref {
          oldRefs := oldRefs[key := child.ref];
        }
        if key !in refs {
          refs := refs[key := BoundOnRef(nextSerial, key)];
          nextSerial := nextSerial + 1;
        }
        out := child.(ref := refs[key]);
      }
    }

    /**
     * `onRef(key, component)`, the body of a slot's bound callback. Returns the
     * user's ref it forwarded `component` to, if any, and what the owner must
     * do: mount a new component, unmount the one registered under `key`, or
     * nothing.
     */
    method OnRef(key: string, component: Option<C>) returns (forwardedTo: Option<Ref>, event: Event<C>)
      requires Valid()
      modifies this`keys, this`components
      ensures Valid()
      ensures forwardedTo == if old(OldRef(key)) != NoRef then Some(old(OldRef(key))) else None
      ensures component.Some? ==>
        && components == old(components)[key := component.value]
        && keys == (if key in old(keys) then old(keys) else old(keys) + [key])
        && event == Mounted(component.value)
      ensures component.None? && key in old(components) ==>
        && components == old(components) - {key}
        && keys == Without(old(keys), key)
        && event == Unmounted(old(components)[key])
      ensures component.None? && key !in old(components) ==>
        components == old(components) && keys == old(keys) && event == NoEvent
    {
      var ref := OldRef(key);
      forwardedTo := if ref != NoRef then Some(ref) else None;
      if component.Some? {
        if key !in keys {
          keys := keys + [key];
        }
        components := components[key := component.value];
        event := Mounted(component.value);
      } else if key in components {
        event := Unmounted(components[key]);
        WithoutNoDuplicates(keys, key);
        keys := Without(keys, key);
        components := components - {key};
      } else {
        event := NoEvent;
      }
    }

    /**
     * `createComponentsIterator(reversed)`: every registered component once,
     * in insertion order, or in exactly the reverse order.
     */
    method Iterate(reversed: bool) returns (r: seq<C>)
      requires Valid()
      ensures |r| == |keys|
      ensures !reversed ==> forall i :: 0 <= i < |keys| ==> r[i] == components[keys[i]]
      ensures reversed ==> forall i :: 0 <= i < |keys| ==> r[i] == components[keys[|keys| - 1 - i]]
    {
      r := [];
      if reversed {
        var i := |keys|;
        while i > 0
          invariant 0 <= i <= |keys|
          invariant |r| == |keys| - i
          invariant forall j :: 0 <= j < |r| ==> r[j] == components[keys[|keys| - 1 - j]]
        {
          i := i - 1;
          r := r + [components[keys[i]]];
        }
      } else {
        for i := 0 to |keys|
          invariant |r| == i
          invariant forall j :: 0 <= j < i ==> r[j] == components[keys[j]]
        {
          r := r + [components[keys[i]]];
        }
      }
    }
  }
}
