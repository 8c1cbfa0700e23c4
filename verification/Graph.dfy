/** How a rebuilt value and heap correspond to the written ones, and the state both sides share on the way. */
module Graph {
  import opened Types
  import opened Twins
  import opened Writer
  import opened Reader

  /** From the addresses of written objects to the objects made for them. */
  type Naming = map<nat, nat>

  ghost predicate Grows(phi: Naming, psi: Naming) {
    forall a | a in phi :: a in psi && psi[a] == phi[a]
  }

  /** `w` is `v` with addresses renamed by `phi`, except that a pointer may have come to lead to an array element. */
  ghost predicate Alike(v: Value, w: Value, phi: Naming)
    decreases v, 0
  {
    match v
    case Num(_) => w == v
    case Link(ref) =>
      if ref.Node? then ref.id in phi && w.Link? && (w.ref == Node(phi[ref.id]) || w.ref.Element?)
      else ref.Null? && w == v
    case Items(vs) => w.Items? && Alikes(vs, w.items, phi)
  }

  ghost predicate Alikes(vs: seq<Value>, ws: seq<Value>, phi: Naming)
    decreases vs, 0
  {
    if vs == [] then ws == [] else
      ws != [] && Alike(vs[0], ws[0], phi) && Alikes(vs[1..], ws[1..], phi)
  }

  /** Some pointer in `w` leads to an array element instead of an object. */
  ghost predicate Marred(w: Value)
    decreases w, 0
  {
    match w
    case Num(_) => false
    case Link(ref) => ref.Element?
    case Items(ws) => MarredItems(ws)
  }

  ghost predicate MarredItems(ws: seq<Value>)
    decreases ws, 0
  {
    ws != [] && (Marred(ws[0]) || MarredItems(ws[1..]))
  }

  /** `w` is `v` with every address renamed by `phi`. */
  ghost predicate Same(v: Value, w: Value, phi: Naming) {
    Alike(v, w, phi) && !Marred(w)
  }

  lemma {:induction false} AlikeGrows(v: Value, w: Value, phi: Naming, psi: Naming)
    requires Alike(v, w, phi) && Grows(phi, psi)
    ensures Alike(v, w, psi)
    decreases v, 0
  {
    if v.Items? {
      AlikesGrow(v.items, w.items, phi, psi);
    }
  }

  lemma {:induction false} AlikesGrow(vs: seq<Value>, ws: seq<Value>, phi: Naming, psi: Naming)
    requires Alikes(vs, ws, phi) && Grows(phi, psi)
    ensures Alikes(vs, ws, psi)
    decreases vs, 0
  {
    if vs != [] {
      AlikeGrows(vs[0], ws[0], phi, psi);
      AlikesGrow(vs[1..], ws[1..], phi, psi);
    }
  }

  lemma {:induction false} AlikesPointwise(vs: seq<Value>, ws: seq<Value>, phi: Naming)
    ensures Alikes(vs, ws, phi) <==> |vs| == |ws| && forall i | 0 <= i < |vs| :: Alike(vs[i], ws[i], phi)
  {
    if vs != [] && ws != [] {
      AlikesPointwise(vs[1..], ws[1..], phi);
      assert |vs| == |ws| ==> forall i | 0 < i < |vs| :: vs[i] == vs[1..][i - 1] && ws[i] == ws[1..][i - 1];
    }
  }

  lemma {:induction false} MarredPointwise(ws: seq<Value>)
    ensures MarredItems(ws) <==> exists i :: 0 <= i < |ws| && Marred(ws[i])
  {
    if ws != [] {
      MarredPointwise(ws[1..]);
      assert forall i | 0 < i < |ws| :: ws[i] == ws[1..][i - 1];
    }
  }

  /** Without pointers there is nothing to rename. */
  lemma {:induction false} AlikeWithoutPointers(t: Type, v: Value, w: Value, phi: Naming, heap: Heap)
    requires NoPointers(t) && TypeOk(t) && HasType(t, v, heap)
    ensures Alike(v, w, phi) <==> v == w
  {
    if v.Items? && w.Items? {
      AlikesPointwise(v.items, w.items, phi);
    }
    if v.Items? && w.Items? && |v.items| == |w.items| {
      forall i | 0 <= i < |v.items| ensures Alike(v.items[i], w.items[i], phi) <==> v.items[i] == w.items[i] {
        match t
        case Array(e, _) => AlikeWithoutPointers(e, v.items[i], w.items[i], phi, heap);
        case Vector(e) => AlikeWithoutPointers(e, v.items[i], w.items[i], phi, heap);
        case String(u) => AlikeWithoutPointers(u, v.items[i], w.items[i], phi, heap);
        case Map(e) => AlikeWithoutPointers(e, v.items[i], w.items[i], phi, heap);
        case Struct(_, _, _, fields, _) => AlikeWithoutPointers(fields[i], v.items[i], w.items[i], phi, heap);
      }
      assert v.items == w.items <==> forall i | 0 <= i < |v.items| :: v.items[i] == w.items[i];
    }
  }

  /** A value of a type without pointers is not marred. */
  lemma {:induction false} UnmarredWithoutPointers(t: Type, v: Value, heap: Heap)
    requires NoPointers(t) && TypeOk(t) && HasType(t, v, heap)
    ensures !Marred(v)
  {
    if v.Items? {
      MarredPointwise(v.items);
      forall i | 0 <= i < |v.items| ensures !Marred(v.items[i]) {
        match t
        case Array(e, _) => UnmarredWithoutPointers(e, v.items[i], heap);
        case Vector(e) => UnmarredWithoutPointers(e, v.items[i], heap);
        case String(u) => UnmarredWithoutPointers(u, v.items[i], heap);
        case Map(e) => UnmarredWithoutPointers(e, v.items[i], heap);
        case Struct(_, _, _, fields, _) => UnmarredWithoutPointers(fields[i], v.items[i], heap);
      }
    }
  }

  // ---------------------------------------------------------------- what a value points to

  /** Every address in `v` belongs to `within`. */
  ghost predicate Inside(v: Value, within: set<nat>) {
    match v
    case Num(_) => true
    case Link(ref) => ref.Node? ==> ref.id in within
    case Items(vs) => forall i | 0 <= i < |vs| :: Inside(vs[i], within)
  }

  lemma {:induction false} InsideGrows(v: Value, within: set<nat>, more: set<nat>)
    requires Inside(v, within) && within <= more
    ensures Inside(v, more)
  {
    if v.Items? {
      forall i | 0 <= i < |v.items| ensures Inside(v.items[i], more) {
        InsideGrows(v.items[i], within, more);
      }
    }
  }

  lemma {:induction false} PlainHasNoPointers(t: Type)
    requires Plain(t)
    ensures NoPointers(t)
  {
    match t
    case Prim(_) =>
    case Array(e, _) => PlainHasNoPointers(e);
    case Struct(_, _, _, fields, _) =>
      forall f | f in fields ensures NoPointers(f) {
        PlainHasNoPointers(f);
      }
  }

  lemma {:induction false} NoPointersInside(t: Type, v: Value, heap: Heap)
    requires NoPointers(t) && TypeOk(t) && HasType(t, v, heap)
    ensures Inside(v, {})
  {
    if v.Items? {
      forall i | 0 <= i < |v.items| ensures Inside(v.items[i], {}) {
        match t
        case Array(e, _) => NoPointersInside(e, v.items[i], heap);
        case Vector(e) => NoPointersInside(e, v.items[i], heap);
        case String(u) => NoPointersInside(u, v.items[i], heap);
        case Map(e) => NoPointersInside(e, v.items[i], heap);
        case Struct(_, _, _, fields, _) => NoPointersInside(fields[i], v.items[i], heap);
      }
    }
  }

  lemma PlainInside(t: Type, v: Value, heap: Heap, within: set<nat>)
    requires Plain(t) && TypeOk(t) && HasType(t, v, heap)
    ensures Inside(v, within)
  {
    PlainHasNoPointers(t);
    NoPointersInside(t, v, heap);
    InsideGrows(v, {}, within);
  }

  lemma ItemsInside(v: Value, vs: seq<Value>, within: set<nat>)
    requires Inside(v, within) && Inside(Items(vs), within)
    ensures Inside(Items([v] + vs), within)
  {
  }

  /** Where there is nothing to rename, alike is equal, and nothing is marred. */
  lemma {:induction false} AlikeIsEqual(v: Value, w: Value, phi: Naming)
    requires Inside(v, {}) && Alike(v, w, phi)
    ensures v == w && !Marred(w)
  {
    if v.Items? {
      AlikesPointwise(v.items, w.items, phi);
      MarredPointwise(w.items);
      forall i | 0 <= i < |v.items| ensures v.items[i] == w.items[i] && !Marred(w.items[i]) {
        AlikeIsEqual(v.items[i], w.items[i], phi);
      }
      assert v.items == w.items;
    }
  }

  // ---------------------------------------------------------------- maps, entry by entry

  lemma {:induction false} MarredJoin(vs: seq<Value>, ws: seq<Value>)
    ensures MarredItems(vs + ws) <==> MarredItems(vs) || MarredItems(ws)
    decreases vs
  {
    if vs == [] {
      assert vs + ws == ws;
    } else {
      assert (vs + ws)[1..] == vs[1..] + ws;
      MarredJoin(vs[1..], ws);
    }
  }

  lemma AlikesJoin(vs: seq<Value>, ws: seq<Value>, xs: seq<Value>, ys: seq<Value>, phi: Naming)
    requires Alikes(vs, xs, phi) && Alikes(ws, ys, phi)
    ensures Alikes(vs + ws, xs + ys, phi)
  {
    AlikesPointwise(vs, xs, phi);
    AlikesPointwise(ws, ys, phi);
    AlikesPointwise(vs + ws, xs + ys, phi);
  }

  /** Entries, with keys that hold no addresses. */
  ghost predicate Keyed(entries: seq<Value>) {
    forall i | 0 <= i < |entries| :: IsEntry(entries[i]) && Inside(entries[i].items[0], {})
  }

  /** Renaming leaves keys alone. */
  lemma KeyIsEqual(v: Value, w: Value, phi: Naming)
    requires IsEntry(v) && Inside(v.items[0], {}) && Alike(v, w, phi)
    ensures IsEntry(w) && w.items[0] == v.items[0]
  {
    AlikesPointwise(v.items, w.items, phi);
    AlikeIsEqual(v.items[0], w.items[0], phi);
  }

  lemma PresentAlike(vs: seq<Value>, ws: seq<Value>, v: Value, w: Value, phi: Naming)
    requires Keyed(vs) && Keyed([v]) && Alikes(vs, ws, phi) && Alike(v, w, phi)
    ensures Present(vs, v) <==> Present(ws, w)
  {
    AlikesPointwise(vs, ws, phi);
    assert [v][0] == v;
    KeyIsEqual(v, w, phi);
    forall i | 0 <= i < |vs| ensures SameKey(vs[i], v) <==> SameKey(ws[i], w) {
      KeyIsEqual(vs[i], ws[i], phi);
    }
    if Present(ws, w) {
      var i :| 0 <= i < |ws| && SameKey(ws[i], w);
      assert SameKey(vs[i], v);
    }
  }

  /** Insert decides by keys alone, so that renamed entries make the renamed map. */
  lemma {:induction false} InsertAllAlike(vs: seq<Value>, ws: seq<Value>, xs: seq<Value>, ys: seq<Value>, phi: Naming)
    requires Keyed(vs) && Keyed(xs) && Alikes(vs, ws, phi) && Alikes(xs, ys, phi)
    ensures Alikes(InsertAll(vs, xs), InsertAll(ws, ys), phi)
    decreases |xs|
  {
    if xs != [] {
      assert Keyed([xs[0]]) && Keyed(xs[1..]);
      PresentAlike(vs, ws, xs[0], ys[0], phi);
      AlikesJoin(vs, [xs[0]], ws, [ys[0]], phi) by {
        assert [xs[0]][1..] == [] && [ys[0]][1..] == [];
      }
      InsertAllAlike(Insert(vs, xs[0]), Insert(ws, ys[0]), xs[1..], ys[1..], phi);
    }
  }

  /** What is marred among the entries is marred in the map or among those turned away. */
  lemma {:induction false} InsertAllMarred(vs: seq<Value>, xs: seq<Value>)
    ensures MarredItems(InsertAll(vs, xs)) || MarredItems(TurnedAll(vs, xs)) <==> MarredItems(vs) || MarredItems(xs)
    decreases |xs|
  {
    if xs != [] {
      MarredJoin(vs, [xs[0]]);
      assert [xs[0]][1..] == [];
      MarredJoin(TurnedBy(vs, xs[0]), TurnedAll(Insert(vs, xs[0]), xs[1..]));
      InsertAllMarred(Insert(vs, xs[0]), xs[1..]);
    }
  }

  lemma {:induction false} InsertAllInside(vs: seq<Value>, xs: seq<Value>, within: set<nat>)
    requires Inside(Items(vs), within) && Inside(Items(xs), within)
    ensures Inside(Items(InsertAll(vs, xs)), within)
    decreases |xs|
  {
    if xs != [] {
      assert Inside(Items(xs[1..]), within) && Inside(Items(vs + [xs[0]]), within);
      InsertAllInside(Insert(vs, xs[0]), xs[1..], within);
    }
  }

  /** Entries with distinct keys are all inserted. */
  lemma {:induction false} InsertAllDistinct(vs: seq<Value>, xs: seq<Value>)
    requires DistinctKeys(vs + xs)
    ensures InsertAll(vs, xs) == vs + xs && TurnedAll(vs, xs) == []
    decreases |xs|
  {
    if xs != [] {
      var all := vs + xs;
      forall i | 0 <= i < |vs| ensures !SameKey(vs[i], xs[0]) {
        assert all[i] == vs[i] && all[|vs|] == xs[0];
      }
      assert (vs + [xs[0]]) + xs[1..] == all;
      InsertAllDistinct(vs + [xs[0]], xs[1..]);
    }
  }

  /** A map as long as the list of its entries has turned none away. */
  lemma {:induction false} InsertAllCount(vs: seq<Value>, xs: seq<Value>)
    ensures |InsertAll(vs, xs)| <= |vs| + |xs|
    ensures |InsertAll(vs, xs)| == |vs| + |xs| ==> InsertAll(vs, xs) == vs + xs
    decreases |xs|
  {
    if xs != [] {
      InsertAllCount(Insert(vs, xs[0]), xs[1..]);
      assert (vs + [xs[0]]) + xs[1..] == vs + xs;
    }
  }

  // ---------------------------------------------------------------- what a read settles on

  /**
    * `v` with every skipped struct replaced by what the reader's memory held in its place, and every map left with
    * the entries that insert keeps when some of the keys have come to be equal.
    */
  function Settled(c: Context, t: Type, v: Value, at: Place): Value
    decreases v, 0
  {
    if !v.Items? then v else
      match t
      case Struct(_, _, _, fields, _) =>
        if RawBlock(c, t) then v
        else if Skipped(c, t) then Held(c, t, at)
        else Items(SettledFields(c, fields, v.items, at, 0))
      case Array(e, _) => Items(SettledElems(c, e, v.items, Row(at, true), 0))
      case Vector(e) => Items(SettledElems(c, e, v.items, Row(at, false), 0))
      case Map(e) => Items(InsertAll([], SettledElems(c, e, v.items, Row(at, false), 0)))
      case _ => v
  }

  function SettledFields(c: Context, ts: seq<Type>, vs: seq<Value>, whole: Place, k: nat): (ws: seq<Value>)
    ensures |ws| == |vs|
    decreases vs, 0
  {
    if ts == [] || vs == [] then vs else
      [Settled(c, ts[0], vs[0], Part(whole, k))] + SettledFields(c, ts[1..], vs[1..], whole, k + 1)
  }

  function SettledElems(c: Context, e: Type, vs: seq<Value>, row: Row, k: nat): (ws: seq<Value>)
    ensures |ws| == |vs|
    decreases vs, 0
  {
    if vs == [] then [] else
      [Settled(c, e, vs[0], Spot(row, k))] + SettledElems(c, e, vs[1..], row, k + 1)
  }

  /** Every skipped struct in `v` equals what the reader's memory holds in its place. */
  predicate AllHeld(c: Context, t: Type, v: Value, at: Place)
    decreases v, 0
  {
    v.Items? ==>
      match t
      case Struct(_, _, _, fields, _) =>
        RawBlock(c, t) || (if Skipped(c, t) then v == Held(c, t, at) else AllFieldsHeld(c, fields, v.items, at, 0))
      case Array(e, _) => AllElemsHeld(c, e, v.items, Row(at, true), 0)
      case Vector(e) => AllElemsHeld(c, e, v.items, Row(at, false), 0)
      case Map(e) => AllElemsHeld(c, e, v.items, Row(at, false), 0)
      case _ => true
  }

  predicate AllFieldsHeld(c: Context, ts: seq<Type>, vs: seq<Value>, whole: Place, k: nat)
    decreases vs, 0
  {
    ts == [] || vs == []
    || (AllHeld(c, ts[0], vs[0], Part(whole, k)) && AllFieldsHeld(c, ts[1..], vs[1..], whole, k + 1))
  }

  predicate AllElemsHeld(c: Context, e: Type, vs: seq<Value>, row: Row, k: nat)
    decreases vs, 0
  {
    vs == [] || (AllHeld(c, e, vs[0], Spot(row, k)) && AllElemsHeld(c, e, vs[1..], row, k + 1))
  }

  /** `v` is a value of a type of which `t` is the twin on another host. */
  ghost predicate Typed(f: Flags, a: Type, t: Type, v: Value, heap: Heap) {
    Twin(f, a, t) && HasType(a, v, heap)
  }

  ghost predicate FieldsMatch(f: Flags, ss: seq<Type>, ts: seq<Type>, vs: seq<Value>, heap: Heap) {
    |ss| == |ts| == |vs| && forall i | 0 <= i < |ts| :: Typed(f, ss[i], ts[i], vs[i], heap)
  }

  ghost predicate ElemsMatch(f: Flags, d: Type, e: Type, vs: seq<Value>, heap: Heap) {
    Twin(f, d, e) && forall i | 0 <= i < |vs| :: HasType(d, vs[i], heap)
  }

  /** A value settles on itself exactly when every skipped struct in it equals what is there already. */
  lemma {:induction false} SettledIsValueIff(f: Flags, c: Context, a: Type, t: Type, v: Value, at: Place, heap: Heap)
    requires Typed(f, a, t, v, heap)
    ensures Settled(c, t, v, at) == v <==> AllHeld(c, t, v, at)
    decreases v, 0
  {
    if v.Items? {
      match t
      case Struct(_, _, _, fields, _) => SettledFieldsAreValuesIff(f, c, a.fields, fields, v.items, at, 0, heap);
      case Array(e, _) => SettledElemsAreValuesIff(f, c, a.elem, e, v.items, Row(at, true), 0, heap);
      case Vector(e) => SettledElemsAreValuesIff(f, c, a.elem, e, v.items, Row(at, false), 0, heap);
      case Map(e) =>
        SettledElemsAreValuesIff(f, c, a.entry, e, v.items, Row(at, false), 0, heap);
        MapIsItselfIff(v.items, SettledElems(c, e, v.items, Row(at, false), 0));
      case _ =>
    }
  }

  /** A map made of as many entries is the same map exactly when they are the same entries. */
  lemma MapIsItselfIff(vs: seq<Value>, ws: seq<Value>)
    requires DistinctKeys(vs) && |ws| == |vs|
    ensures InsertAll([], ws) == vs <==> ws == vs
  {
    assert [] + vs == vs && [] + ws == ws;
    InsertAllDistinct([], vs);
    InsertAllCount([], ws);
  }

  lemma {:induction false} SettledFieldsAreValuesIff(f: Flags, c: Context, ss: seq<Type>, ts: seq<Type>, vs: seq<Value>,
                                                     whole: Place, k: nat, heap: Heap)
    requires FieldsMatch(f, ss, ts, vs, heap)
    ensures SettledFields(c, ts, vs, whole, k) == vs <==> AllFieldsHeld(c, ts, vs, whole, k)
    decreases vs, 0
  {
    if vs != [] {
      assert Typed(f, ss[0], ts[0], vs[0], heap);
      SettledIsValueIff(f, c, ss[0], ts[0], vs[0], Part(whole, k), heap);
      SettledFieldsAreValuesIff(f, c, ss[1..], ts[1..], vs[1..], whole, k + 1, heap);
      var ws := SettledFields(c, ts, vs, whole, k);
      assert vs == [vs[0]] + vs[1..] && ws[1..] == SettledFields(c, ts[1..], vs[1..], whole, k + 1);
    }
  }

  lemma {:induction false} SettledElemsAreValuesIff(f: Flags, c: Context, d: Type, e: Type, vs: seq<Value>, row: Row,
                                                    k: nat, heap: Heap)
    requires ElemsMatch(f, d, e, vs, heap)
    ensures SettledElems(c, e, vs, row, k) == vs <==> AllElemsHeld(c, e, vs, row, k)
    decreases vs, 0
  {
    if vs != [] {
      SettledIsValueIff(f, c, d, e, vs[0], Spot(row, k), heap);
      SettledElemsAreValuesIff(f, c, d, e, vs[1..], row, k + 1, heap);
      var ws := SettledElems(c, e, vs, row, k);
      assert vs == [vs[0]] + vs[1..] && ws[1..] == SettledElems(c, e, vs[1..], row, k + 1);
    }
  }

  /** Where no struct is skipped, nothing depends on memory. */
  lemma {:induction false} UnskippedIsHeld(c: Context, t: Type, v: Value, at: Place)
    requires Unskipped(c, t)
    ensures AllHeld(c, t, v, at)
    decreases v, 0
  {
    if v.Items? {
      match t
      case Struct(_, _, _, fields, _) =>
        if !RawBlock(c, t) {
          UnskippedFieldsAreHeld(c, fields, v.items, at, 0);
        }
      case Array(e, _) => UnskippedElemsAreHeld(c, e, v.items, Row(at, true), 0);
      case Vector(e) => UnskippedElemsAreHeld(c, e, v.items, Row(at, false), 0);
      case Map(e) => UnskippedElemsAreHeld(c, e, v.items, Row(at, false), 0);
      case _ =>
    }
  }

  lemma {:induction false} UnskippedFieldsAreHeld(c: Context, ts: seq<Type>, vs: seq<Value>, whole: Place, k: nat)
    requires forall f | f in ts :: Unskipped(c, f)
    ensures AllFieldsHeld(c, ts, vs, whole, k)
    decreases vs, 0
  {
    if ts != [] && vs != [] {
      UnskippedIsHeld(c, ts[0], vs[0], Part(whole, k));
      UnskippedFieldsAreHeld(c, ts[1..], vs[1..], whole, k + 1);
    }
  }

  lemma {:induction false} UnskippedElemsAreHeld(c: Context, e: Type, vs: seq<Value>, row: Row, k: nat)
    requires Unskipped(c, e)
    ensures AllElemsHeld(c, e, vs, row, k)
    decreases vs, 0
  {
    if vs != [] {
      UnskippedIsHeld(c, e, vs[0], Spot(row, k));
      UnskippedElemsAreHeld(c, e, vs[1..], row, k + 1);
    }
  }

  /** Integers settle on themselves. */
  lemma {:induction false} PrimsSettle(c: Context, e: Type, vs: seq<Value>, row: Row, k: nat)
    requires e.Prim?
    ensures SettledElems(c, e, vs, row, k) == vs
    decreases vs
  {
    if vs != [] {
      PrimsSettle(c, e, vs[1..], row, k + 1);
    }
  }

  lemma {:induction false} SettledElemsAt(c: Context, e: Type, vs: seq<Value>, row: Row, k: nat, i: nat)
    requires i < |vs|
    ensures SettledElems(c, e, vs, row, k)[i] == Settled(c, e, vs[i], Spot(row, k + i))
    decreases vs, 0
  {
    if i != 0 {
      SettledElemsAt(c, e, vs[1..], row, k + 1, i - 1);
    }
  }

  /** Settling brings no pointers in. */
  lemma {:induction false} SettledInside(c: Context, t: Type, v: Value, at: Place, within: set<nat>)
    requires TypeOk(t) && Inside(v, within)
    ensures Inside(Settled(c, t, v, at), within)
    decreases v, 0
  {
    if v.Items? {
      match t
      case Struct(_, _, _, fields, _) =>
        if RawBlock(c, t) {
        } else if Skipped(c, t) {
          DefaultHasType(t, map[]);
          PlainInside(t, Held(c, t, at), map[], within);
        } else {
          SettledFieldsInside(c, fields, v.items, at, 0, within);
        }
      case Array(e, _) => SettledElemsInside(c, e, v.items, Row(at, true), 0, within);
      case Vector(e) => SettledElemsInside(c, e, v.items, Row(at, false), 0, within);
      case Map(e) =>
        SettledElemsInside(c, e, v.items, Row(at, false), 0, within);
        InsertAllInside([], SettledElems(c, e, v.items, Row(at, false), 0), within);
      case _ =>
    }
  }

  lemma {:induction false} SettledFieldsInside(c: Context, ts: seq<Type>, vs: seq<Value>, whole: Place, k: nat,
                                               within: set<nat>)
    requires (forall t | t in ts :: TypeOk(t)) && Inside(Items(vs), within)
    ensures Inside(Items(SettledFields(c, ts, vs, whole, k)), within)
    decreases vs, 0
  {
    if ts != [] && vs != [] {
      assert Inside(Items(vs[1..]), within);
      SettledInside(c, ts[0], vs[0], Part(whole, k), within);
      SettledFieldsInside(c, ts[1..], vs[1..], whole, k + 1, within);
      ItemsInside(Settled(c, ts[0], vs[0], Part(whole, k)), SettledFields(c, ts[1..], vs[1..], whole, k + 1), within);
    }
  }

  lemma {:induction false} SettledElemsInside(c: Context, e: Type, vs: seq<Value>, row: Row, k: nat, within: set<nat>)
    requires TypeOk(e) && Inside(Items(vs), within)
    ensures Inside(Items(SettledElems(c, e, vs, row, k)), within)
    decreases vs, 0
  {
    if vs != [] {
      assert Inside(Items(vs[1..]), within);
      SettledInside(c, e, vs[0], Spot(row, k), within);
      SettledElemsInside(c, e, vs[1..], row, k + 1, within);
      ItemsInside(Settled(c, e, vs[0], Spot(row, k)), SettledElems(c, e, vs[1..], row, k + 1), within);
    }
  }

  /** No entry that holds pointers is turned away when `v` is read: the keys of such maps stay distinct. */
  predicate EntriesStay(c: Context, t: Type, v: Value, at: Place)
    decreases v, 0
  {
    v.Items? ==>
      match t
      case Struct(_, _, _, fields, _) => RawBlock(c, t) || Skipped(c, t) || FieldEntriesStay(c, fields, v.items, at, 0)
      case Array(e, _) => ElemEntriesStay(c, e, v.items, Row(at, true), 0)
      case Vector(e) => ElemEntriesStay(c, e, v.items, Row(at, false), 0)
      case Map(e) =>
        && (NoPointers(e) || DistinctKeys(SettledElems(c, e, v.items, Row(at, false), 0)))
        && ElemEntriesStay(c, e, v.items, Row(at, false), 0)
      case _ => true
  }

  predicate FieldEntriesStay(c: Context, ts: seq<Type>, vs: seq<Value>, whole: Place, k: nat)
    decreases vs, 0
  {
    ts == [] || vs == []
    || (EntriesStay(c, ts[0], vs[0], Part(whole, k)) && FieldEntriesStay(c, ts[1..], vs[1..], whole, k + 1))
  }

  predicate ElemEntriesStay(c: Context, e: Type, vs: seq<Value>, row: Row, k: nat)
    decreases vs, 0
  {
    vs == [] || (EntriesStay(c, e, vs[0], Spot(row, k)) && ElemEntriesStay(c, e, vs[1..], row, k + 1))
  }

  /** Without pointers there are no such entries. */
  lemma {:induction false} NoPointersStay(c: Context, t: Type, v: Value, at: Place)
    requires NoPointers(t)
    ensures EntriesStay(c, t, v, at)
    decreases v, 0
  {
    if v.Items? {
      match t
      case Struct(_, _, _, fields, _) => NoFieldPointersStay(c, fields, v.items, at, 0);
      case Array(e, _) => NoElemPointersStay(c, e, v.items, Row(at, true), 0);
      case Vector(e) => NoElemPointersStay(c, e, v.items, Row(at, false), 0);
      case Map(e) => NoElemPointersStay(c, e, v.items, Row(at, false), 0);
      case _ =>
    }
  }

  lemma {:induction false} NoFieldPointersStay(c: Context, ts: seq<Type>, vs: seq<Value>, whole: Place, k: nat)
    requires forall t | t in ts :: NoPointers(t)
    ensures FieldEntriesStay(c, ts, vs, whole, k)
    decreases vs, 0
  {
    if ts != [] && vs != [] {
      NoPointersStay(c, ts[0], vs[0], Part(whole, k));
      NoFieldPointersStay(c, ts[1..], vs[1..], whole, k + 1);
    }
  }

  lemma {:induction false} NoElemPointersStay(c: Context, e: Type, vs: seq<Value>, row: Row, k: nat)
    requires NoPointers(e)
    ensures ElemEntriesStay(c, e, vs, row, k)
    decreases vs, 0
  {
    if vs != [] {
      NoPointersStay(c, e, vs[0], Spot(row, k));
      NoElemPointersStay(c, e, vs[1..], row, k + 1);
    }
  }

  /** A value that settles on itself keeps all entries. */
  lemma {:induction false} HeldStays(f: Flags, c: Context, a: Type, t: Type, v: Value, at: Place, heap: Heap)
    requires Typed(f, a, t, v, heap) && AllHeld(c, t, v, at)
    ensures EntriesStay(c, t, v, at)
    decreases v, 0
  {
    if v.Items? {
      match t
      case Struct(_, _, _, fields, _) =>
        if !RawBlock(c, t) && !Skipped(c, t) {
          HeldFieldsStay(f, c, a.fields, fields, v.items, at, 0, heap);
        }
      case Array(e, _) => HeldElemsStay(f, c, a.elem, e, v.items, Row(at, true), 0, heap);
      case Vector(e) => HeldElemsStay(f, c, a.elem, e, v.items, Row(at, false), 0, heap);
      case Map(e) =>
        HeldElemsStay(f, c, a.entry, e, v.items, Row(at, false), 0, heap);
        SettledElemsAreValuesIff(f, c, a.entry, e, v.items, Row(at, false), 0, heap);
      case _ =>
    }
  }

  lemma {:induction false} HeldFieldsStay(f: Flags, c: Context, ss: seq<Type>, ts: seq<Type>, vs: seq<Value>,
                                          whole: Place, k: nat, heap: Heap)
    requires FieldsMatch(f, ss, ts, vs, heap) && AllFieldsHeld(c, ts, vs, whole, k)
    ensures FieldEntriesStay(c, ts, vs, whole, k)
    decreases vs, 0
  {
    if vs != [] {
      assert Typed(f, ss[0], ts[0], vs[0], heap);
      HeldStays(f, c, ss[0], ts[0], vs[0], Part(whole, k), heap);
      HeldFieldsStay(f, c, ss[1..], ts[1..], vs[1..], whole, k + 1, heap);
    }
  }

  lemma {:induction false} HeldElemsStay(f: Flags, c: Context, d: Type, e: Type, vs: seq<Value>, row: Row, k: nat,
                                         heap: Heap)
    requires ElemsMatch(f, d, e, vs, heap) && AllElemsHeld(c, e, vs, row, k)
    ensures ElemEntriesStay(c, e, vs, row, k)
    decreases vs, 0
  {
    if vs != [] {
      HeldStays(f, c, d, e, vs[0], Spot(row, k), heap);
      HeldElemsStay(f, c, d, e, vs[1..], row, k + 1, heap);
    }
  }

  /** The entries of a map, as they settle, have keys without addresses. */
  lemma SettledIsKeyed(c: Context, d: Type, e: Type, vs: seq<Value>, row: Row, heap: Heap)
    requires TypeOk(Map(d)) && TypeOk(Map(e)) && HasType(Map(d), Items(vs), heap)
    ensures Keyed(SettledElems(c, e, vs, row, 0))
  {
    forall i | 0 <= i < |vs|
      ensures IsEntry(SettledElems(c, e, vs, row, 0)[i]) && Inside(SettledElems(c, e, vs, row, 0)[i].items[0], {})
    {
      SettledElemsAt(c, e, vs, row, 0, i);
      assert IsEntry(vs[i]) && HasType(d, vs[i], heap);
      NoPointersInside(d.fields[0], vs[i].items[0], heap);
      SettledInside(c, e.fields[0], vs[i].items[0], Part(Spot(row, i), 0), {});
    }
  }

  // ---------------------------------------------------------------- what the reader's types can hold

  /** Every integer in `v` that travels is in range for the type of the same place in `t`. */
  ghost predicate Fits(c: Context, t: Type, v: Value)
    decreases v, 0
  {
    match t
    case Prim(s) => v.Num? ==> InRange(s, v.n)
    case Pointer(_) => true
    case Struct(_, _, _, fields, _) => v.Items? && !Skipped(c, t) ==> FitFields(c, fields, v.items)
    case Array(e, _) => v.Items? ==> FitElems(c, e, v.items)
    case Vector(e) => v.Items? ==> FitElems(c, e, v.items)
    case String(u) => v.Items? ==> FitElems(c, u, v.items)
    case Map(e) => v.Items? ==> FitElems(c, e, v.items)
  }

  ghost predicate FitElems(c: Context, e: Type, vs: seq<Value>)
    decreases vs, 0
  {
    vs == [] || (Fits(c, e, vs[0]) && FitElems(c, e, vs[1..]))
  }

  ghost predicate FitFields(c: Context, ts: seq<Type>, vs: seq<Value>)
    decreases vs, 0
  {
    ts == [] || vs == [] || (Fits(c, ts[0], vs[0]) && FitFields(c, ts[1..], vs[1..]))
  }

  lemma {:induction false} TypedFits(c: Context, t: Type, v: Value, heap: Heap)
    requires HasType(t, v, heap)
    ensures Fits(c, t, v)
    decreases v, 0
  {
    match t
    case Prim(_) =>
    case Pointer(_) =>
    case Struct(_, _, _, fields, _) => TypedFieldsFit(c, fields, v.items, heap);
    case Array(e, _) => TypedElemsFit(c, e, v.items, heap);
    case Vector(e) => TypedElemsFit(c, e, v.items, heap);
    case String(u) => TypedElemsFit(c, u, v.items, heap);
    case Map(e) => TypedElemsFit(c, e, v.items, heap);
  }

  lemma {:induction false} TypedElemsFit(c: Context, e: Type, vs: seq<Value>, heap: Heap)
    requires ElemsTyped(e, vs, heap)
    ensures FitElems(c, e, vs)
    decreases vs, 0
  {
    if vs != [] {
      TypedFits(c, e, vs[0], heap);
      TypedElemsFit(c, e, vs[1..], heap);
    }
  }

  lemma {:induction false} TypedFieldsFit(c: Context, ts: seq<Type>, vs: seq<Value>, heap: Heap)
    requires |ts| == |vs| && forall i | 0 <= i < |ts| :: HasType(ts[i], vs[i], heap)
    ensures FitFields(c, ts, vs)
    decreases vs, 0
  {
    if vs != [] {
      TypedFits(c, ts[0], vs[0], heap);
      TypedFieldsFit(c, ts[1..], vs[1..], heap);
    }
  }

  /** The objects written between `o` and `p` fit the types the reader gives them. */
  ghost predicate NewFit(r: Context, heap: Heap, o: Out, p: Out) {
    forall a | a in heap && Node(a) in p.seen && Node(a) !in o.seen && heap[a].name in r.types ::
      Fits(r, r.types[heap[a].name], heap[a].value)
  }

  lemma NewFitSplits(r: Context, heap: Heap, o: Out, p: Out, q: Out)
    requires Extends(o, p) && Extends(p, q)
    ensures NewFit(r, heap, o, q) <==> NewFit(r, heap, o, p) && NewFit(r, heap, p, q)
  {
  }

  // ---------------------------------------------------------------- the shared state

  ghost predicate Hit(phi: Naming, id: nat) {
    exists a | a in phi :: phi[a] == id
  }

  /**
    * Reader and writer are at the same offset; the objects made since `base` are, one for one, the addresses
    * in the writer's map, numbered in the order of their offsets; each that is not lost is found at the offset
    * recorded for it, and those already read carry the value written, as it settles in its place.
    */
  ghost predicate Sync(r: Context, heap: Heap, o: Out, s: In, phi: Naming, base: nat) {
    && s.cursor == |o.bin|
    && base <= s.next
    && Fresh(s)
    && DistinctOffsets(o)
    && (forall a :: Node(a) in o.seen <==> a in phi)
    && (forall a | a in phi :: Placed(r, heap, o, s, phi, base, a))
    && Ordered(o, phi)
    && (forall id | base <= id < s.next :: Hit(phi, id))
  }

  /** Objects are numbered in the order of their offsets. */
  ghost predicate Ordered(o: Out, phi: Naming)
    requires forall a | a in phi :: Node(a) in o.seen
  {
    forall a, b | a in phi && b in phi && o.seen[Node(a)] < o.seen[Node(b)] :: phi[a] < phi[b]
  }

  ghost predicate Placed(r: Context, heap: Heap, o: Out, s: In, phi: Naming, base: nat, a: nat)
    requires a in phi && Node(a) in o.seen
  {
    var at := o.seen[Node(a)];
    && a in heap && heap[a].name in r.types
    && 1 < at <= |o.bin|
    && at in s.places
    && s.places[at] == (if Node(a) in o.lost then Element(at) else Node(phi[a]))
    && base <= phi[a] < s.next
    && (phi[a] in s.made ==> Remade(r, heap[a], s.made[phi[a]], phi[a], phi))
  }

  /** An object that has been read is the one written, as it settles in its place. */
  ghost predicate Remade(r: Context, cell: Cell, made: Cell, id: nat, phi: Naming)
    requires cell.name in r.types
  {
    && made.name == cell.name
    && Alike(Settled(r, r.types[cell.name], cell.value, Object(id)), made.value, phi)
  }

  /** Moving both sides over the same bytes keeps them in step. */
  lemma SyncMoves(r: Context, heap: Heap, o: Out, s: In, phi: Naming, base: nat, p: Out)
    requires Sync(r, heap, o, s, phi, base) && p.seen == o.seen && p.lost == o.lost && |o.bin| <= |p.bin|
    ensures Sync(r, heap, p, s.(cursor := |p.bin|), phi, base)
  {
    forall a | a in phi ensures Placed(r, heap, p, s.(cursor := |p.bin|), phi, base, a) {
      assert Placed(r, heap, o, s, phi, base, a);
    }
  }
}
