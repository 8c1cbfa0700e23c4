/** Which values can be written without the check of recursive pointers: those whose pointers form no cycle. */
module Acyclic {
  import opened Types
  import opened Unfolding

  /** No object leads back to itself, nor to one of those in `above`, from which `v` has been reached. */
  ghost predicate NoCycle(heap: Heap, v: Value, above: set<nat>)
    decreases heap.Keys - above, v
  {
    match v
    case Num(_) => true
    case Items(vs) => forall i | 0 <= i < |vs| :: NoCycle(heap, vs[i], above)
    case Link(Node(a)) => a in heap && a !in above && NoCycle(heap, heap[a].value, above + {a})
    case Link(_) => true
  }

  // ---------------------------------------------------------------- no cycle, so an unfolding

  ghost function Unfolded(c: Context, heap: Heap, t: Type, v: Value, above: set<nat>): (u: Value)
    requires Treeable(c, heap, t) && HasType(t, v, heap) && NoCycle(heap, v, above)
    ensures Unfolds(c.types, heap, t, v, u)
    decreases heap.Keys - above, v
  {
    if NoPointers(t) then v
    else if t.Pointer? then
      if v.ref.Null? then Items([])
      else Items([Unfolded(c, heap, c.types[t.target], heap[v.ref.id].value, above + {v.ref.id})])
    else
      KidsTreeable(c, heap, t, |v.items|);
      var n := |v.items|;
      Items(seq(n, i requires 0 <= i < n => Unfolded(c, heap, Kids(t, n)[i], v.items[i], above)))
  }

  // ---------------------------------------------------------------- an unfolding, so no cycle

  function Size(u: Value): nat {
    if u.Items? then 1 + Sizes(u.items) else 0
  }

  function Sizes(us: seq<Value>): nat {
    if us == [] then 0 else Size(us[0]) + Sizes(us[1..])
  }

  lemma {:induction false} PartIsSmaller(us: seq<Value>, i: nat)
    requires i < |us|
    ensures Size(us[i]) <= Sizes(us)
  {
    if i != 0 {
      PartIsSmaller(us[1..], i - 1);
    }
  }

  /** The objects around a value have unfolded to more than the value has. */
  ghost predicate Around(types: map<nat, Type>, heap: Heap, above: set<nat>, u: Value) {
    forall a | a in above :: exists w :: Encloses(types, heap, a, w, u)
  }

  ghost predicate Encloses(types: map<nat, Type>, heap: Heap, a: nat, w: Value, u: Value) {
    && a in heap && heap[a].name in types && Unfolds(types, heap, types[heap[a].name], heap[a].value, w)
    && Size(u) <= Size(w)
  }

  lemma AroundParts(types: map<nat, Type>, heap: Heap, above: set<nat>, u: Value, p: Value)
    requires Around(types, heap, above, u) && Size(p) <= Size(u)
    ensures Around(types, heap, above, p)
  {
    forall a | a in above ensures exists w :: Encloses(types, heap, a, w, p) {
      var w :| Encloses(types, heap, a, w, u);
      assert Encloses(types, heap, a, w, p);
    }
  }

  lemma {:induction false} UnfoldedHasNoCycle(c: Context, heap: Heap, t: Type, v: Value, u: Value, above: set<nat>)
    requires Treeable(c, heap, t) && HasType(t, v, heap)
    requires Unfolds(c.types, heap, t, v, u) && Around(c.types, heap, above, u)
    ensures NoCycle(heap, v, above)
    decreases u
  {
    if NoPointers(t) {
      PlainHasNoCycle(heap, t, v, above);
    } else if t.Pointer? {
      if v.ref.Node? {
        var a, w := v.ref.id, u.items[0];
        PartIsSmaller(u.items, 0);
        if a in above {
          var x :| Encloses(c.types, heap, a, x, u);
          UnfoldingIsUnique(c.types, heap, c.types[t.target], heap[a].value, w, x);
          assert false;
        }
        AroundParts(c.types, heap, above, u, w);
        assert Encloses(c.types, heap, a, w, w);
        UnfoldedHasNoCycle(c, heap, c.types[t.target], heap[a].value, w, above + {a});
      }
    } else {
      KidsTreeable(c, heap, t, |u.items|);
      forall i | 0 <= i < |v.items| ensures NoCycle(heap, v.items[i], above) {
        PartIsSmaller(u.items, i);
        AroundParts(c.types, heap, above, u, u.items[i]);
        UnfoldedHasNoCycle(c, heap, Kids(t, |u.items|)[i], v.items[i], u.items[i], above);
      }
    }
  }

  lemma {:induction false} PlainHasNoCycle(heap: Heap, t: Type, v: Value, above: set<nat>)
    requires TypeOk(t) && HasType(t, v, heap) && NoPointers(t)
    ensures NoCycle(heap, v, above)
    decreases v
  {
    if v.Items? {
      forall i | 0 <= i < |v.items| ensures NoCycle(heap, v.items[i], above) {
        match t
        case Struct(_, _, _, fields, _) =>
          assert fields[i] in fields;
          PlainHasNoCycle(heap, fields[i], v.items[i], above);
        case Array(e, _) => PlainHasNoCycle(heap, e, v.items[i], above);
        case Vector(e) => PlainHasNoCycle(heap, e, v.items[i], above);
        case Map(e) => PlainHasNoCycle(heap, e, v.items[i], above);
        case String(unit) => PlainHasNoCycle(heap, unit, v.items[i], above);
      }
    }
  }

  ghost predicate HasUnfolding(types: map<nat, Type>, heap: Heap, t: Type, v: Value) {
    exists u :: Unfolds(types, heap, t, v, u)
  }

  /**
    * A value can be written without the check of recursive pointers if and only if no object it leads to leads back
    * to itself.
    */
  lemma UnfoldsIffNoCycle(c: Context, heap: Heap, t: Type, v: Value)
    requires Treeable(c, heap, t) && HasType(t, v, heap)
    ensures HasUnfolding(c.types, heap, t, v) <==> NoCycle(heap, v, {})
  {
    if NoCycle(heap, v, {}) {
      var u := Unfolded(c, heap, t, v, {});
      assert Unfolds(c.types, heap, t, v, u);
    }
    if HasUnfolding(c.types, heap, t, v) {
      var u :| Unfolds(c.types, heap, t, v, u);
      UnfoldedHasNoCycle(c, heap, t, v, u, {});
    }
  }
}
