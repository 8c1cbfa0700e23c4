/**
  * Pointers without the check of recursive pointers: an octet tells a pointer from a null one, and the object it
  * leads to follows on the spot, as often as it is met. What is written is the unfolding of a value.
  */
module Unfolding {
  import opened Status
  import opened Bytes
  import opened Types
  import opened Twins
  import opened Writer
  import opened Reader
  import opened Steps
  import opened Graph
  import opened Leaves
  import opened Exchanges
  import opened Isomorphism

  function Repeat(e: Type, n: nat): (ts: seq<Type>)
    ensures |ts| == n && forall i | 0 <= i < n :: ts[i] == e
  {
    seq(n, _ => e)
  }

  /** The types of the parts of a struct or of the items of a container. */
  function Kids(t: Type, n: nat): seq<Type> {
    match t
    case Struct(_, _, _, fields, _) => fields
    case Array(e, _) => Repeat(e, n)
    case Vector(e) => Repeat(e, n)
    case Map(e) => Repeat(e, n)
    case _ => []
  }

  // ---------------------------------------------------------------- unfoldings

  /** `u` is `v` with every pointer replaced by what it leads to: nothing, or one item, the unfolding of the object. */
  ghost predicate Unfolds(types: map<nat, Type>, heap: Heap, t: Type, v: Value, u: Value)
    decreases u, 1
  {
    if NoPointers(t) then u == v
    else if t.Pointer? then
      && v.Link? && u.Items?
      && match v.ref
         case Null => u.items == []
         case Node(a) =>
           && |u.items| == 1 && a in heap && heap[a].name == t.target && t.target in types
           && Unfolds(types, heap, types[t.target], heap[a].value, u.items[0])
         case Element(_) => false
    else
      v.Items? && u.Items? && UnfoldAll(types, heap, Kids(t, |u.items|), v.items, u.items)
  }

  ghost predicate UnfoldAll(types: map<nat, Type>, heap: Heap, ts: seq<Type>, vs: seq<Value>, us: seq<Value>)
    decreases us, 0
  {
    |ts| == |vs| == |us| && forall i | 0 <= i < |us| :: Unfolds(types, heap, ts[i], vs[i], us[i])
  }

  /** A value as unfolded. */
  ghost predicate TreeTyped(types: map<nat, Type>, heap: Heap, t: Type, u: Value)
    decreases u, 1
  {
    if NoPointers(t) then HasType(t, u, heap)
    else if t.Pointer? then
      && u.Items? && |u.items| <= 1 && t.target in types
      && (|u.items| == 1 ==> TreeTyped(types, heap, types[t.target], u.items[0]))
    else
      && u.Items? && (t.Array? ==> |u.items| == t.size) && (t.Map? ==> DistinctKeys(u.items))
      && AllTreeTyped(types, heap, Kids(t, |u.items|), u.items)
  }

  ghost predicate AllTreeTyped(types: map<nat, Type>, heap: Heap, ts: seq<Type>, us: seq<Value>)
    decreases us, 0
  {
    |ts| == |us| && forall i | 0 <= i < |us| :: TreeTyped(types, heap, ts[i], us[i])
  }

  /** Objects made later change nothing. */
  lemma {:induction false} UnfoldsGrows(types: map<nat, Type>, heap: Heap, more: Heap, t: Type, v: Value, u: Value)
    requires Unfolds(types, heap, t, v, u) && forall a | a in heap :: a in more && more[a] == heap[a]
    ensures Unfolds(types, more, t, v, u)
    decreases u
  {
    if NoPointers(t) {
    } else if t.Pointer? {
      if v.ref.Node? {
        UnfoldsGrows(types, heap, more, types[t.target], heap[v.ref.id].value, u.items[0]);
      }
    } else {
      forall i | 0 <= i < |u.items| ensures Unfolds(types, more, Kids(t, |u.items|)[i], v.items[i], u.items[i]) {
        UnfoldsGrows(types, heap, more, Kids(t, |u.items|)[i], v.items[i], u.items[i]);
      }
    }
  }

  /** There is one unfolding at most. */
  lemma {:induction false} UnfoldingIsUnique(types: map<nat, Type>, heap: Heap, t: Type, v: Value, u: Value, w: Value)
    requires Unfolds(types, heap, t, v, u) && Unfolds(types, heap, t, v, w)
    ensures u == w
    decreases u
  {
    if NoPointers(t) {
    } else if t.Pointer? {
      if v.ref.Node? {
        UnfoldingIsUnique(types, heap, types[t.target], heap[v.ref.id].value, u.items[0], w.items[0]);
        assert u.items == [u.items[0]] && w.items == [w.items[0]];
      }
    } else {
      assert |u.items| == |w.items|;
      forall i | 0 <= i < |u.items| ensures u.items[i] == w.items[i] {
        UnfoldingIsUnique(types, heap, Kids(t, |u.items|)[i], v.items[i], u.items[i], w.items[i]);
      }
      assert u.items == w.items;
    }
  }

  /** What a message without the check of recursive pointers may hold. */
  ghost predicate Treeable(c: Context, heap: Heap, t: Type) {
    && ContextOk(c) && HeapOk(c.types, heap) && TypeOk(t) && Known(c.types, t)
    && c.flags.allowUnmanagedPointers && !c.flags.checkRecursivePointers
  }

  ghost predicate AllTreeable(c: Context, heap: Heap, ts: seq<Type>) {
    forall i | 0 <= i < |ts| :: Treeable(c, heap, ts[i])
  }

  lemma KidsTreeable(c: Context, heap: Heap, t: Type, n: nat)
    requires Treeable(c, heap, t)
    ensures AllTreeable(c, heap, Kids(t, n))
  {
  }

  /** The keys of map entries are no part of what unfolds. */
  lemma KeysUnfold(types: map<nat, Type>, heap: Heap, e: Type, v: Value, u: Value)
    requires TypeOk(Map(e)) && Unfolds(types, heap, e, v, u) && (IsEntry(v) || IsEntry(u))
    ensures IsEntry(v) && IsEntry(u) && v.items[0] == u.items[0]
  {
    if !NoPointers(e) {
      assert Unfolds(types, heap, e.fields[0], v.items[0], u.items[0]);
    }
  }

  /** Unfoldings of typed values are typed. */
  lemma {:induction false} UnfoldingTyped(c: Context, heap: Heap, t: Type, v: Value, u: Value)
    requires Treeable(c, heap, t) && HasType(t, v, heap) && Unfolds(c.types, heap, t, v, u)
    ensures TreeTyped(c.types, heap, t, u)
    decreases u
  {
    if NoPointers(t) {
    } else if t.Pointer? {
      if v.ref.Node? {
        UnfoldingTyped(c, heap, c.types[t.target], heap[v.ref.id].value, u.items[0]);
      }
    } else {
      KidsTreeable(c, heap, t, |u.items|);
      forall i | 0 <= i < |u.items| ensures TreeTyped(c.types, heap, Kids(t, |u.items|)[i], u.items[i]) {
        assert HasType(Kids(t, |u.items|)[i], v.items[i], heap);
        UnfoldingTyped(c, heap, Kids(t, |u.items|)[i], v.items[i], u.items[i]);
      }
      if t.Map? {
        forall i | 0 <= i < |u.items| ensures IsEntry(u.items[i]) && v.items[i].items[0] == u.items[i].items[0] {
          assert Unfolds(c.types, heap, Kids(t, |u.items|)[i], v.items[i], u.items[i]);
          KeysUnfold(c.types, heap, t.entry, v.items[i], u.items[i]);
        }
      }
    }
  }

  // ---------------------------------------------------------------- writing

  /** The number of items, in front of a container of any size. */
  function Counted(c: Context, t: Type, n: nat, before: seq<Byte>): (r: Result<seq<Byte>>)
    ensures r.Ok? ==> before <= r.value
  {
    if t.Vector? || t.Map? then
      var sized :- WriteSize(c, n, Begun(before));
      Ok(sized.bin)
    else
      Ok(before)
  }

  ghost function WriteTree(c: Context, heap: Heap, t: Type, u: Value, before: seq<Byte>): (r: Result<seq<Byte>>)
    requires Treeable(c, heap, t) && TreeTyped(c.types, heap, t, u)
    ensures r.Ok? ==> before <= r.value
    decreases u, 1
  {
    if NoPointers(t) then
      var p :- Body(c, heap, t, u, before);
      Ok(p.bin)
    else if t.Pointer? then
      if u.items == [] then Ok(before + [0])
      else WriteTree(c, heap, c.types[t.target], u.items[0], before + [1])
    else
      var sized :- Counted(c, t, |u.items|, before);
      KidsTreeable(c, heap, t, |u.items|);
      WriteTrees(c, heap, Kids(t, |u.items|), u.items, sized)
  }

  ghost function WriteTrees(c: Context, heap: Heap, ts: seq<Type>, us: seq<Value>, before: seq<Byte>)
      : (r: Result<seq<Byte>>)
    requires AllTreeable(c, heap, ts) && AllTreeTyped(c.types, heap, ts, us)
    ensures r.Ok? ==> before <= r.value
    decreases us, 0
  {
    if us == [] then Ok(before) else
      var next :- WriteTree(c, heap, ts[0], us[0], before);
      WriteTrees(c, heap, ts[1..], us[1..], next)
  }

  /** Without registration a write of values without pointers looks only at the octets before it, and keeps the rest. */
  ghost predicate SameWrite(a: Result<Out>, b: Result<Out>, o: Out) {
    match (a, b)
    case (Ok(p), Ok(q)) => p == o.(bin := q.bin)
    case (Err(e), Err(f)) => e == f
    case _ => false
  }

  lemma {:induction false} PlainWriteIsLocal(c: Context, heap: Heap, t: Type, v: Value, lead: Ref, o: Out, l: Ref,
                                             q: Out)
    requires Writable(c, heap, t) && HasType(t, v, heap) && NoPointers(t) && !c.flags.checkRecursivePointers
    requires AtLead(lead, o) && AtLead(l, q) && o.bin == q.bin
    ensures SameWrite(Write(c, heap, t, v, lead, o), Write(c, heap, t, v, l, q), o)
    decreases t, 0
  {
    match t
    case Prim(_) =>
    case Struct(_, _, _, fields, _) => PlainFieldsAreLocal(c, heap, fields, v.items, lead, o, l, q);
    case Array(e, _) => PlainArrayIsLocal(c, heap, e, v.items, lead, o, l, q);
    case Vector(e) => PlainItemsAreLocal(c, heap, e, v.items, |v.items|, o, q);
    case String(u) => PlainItemsAreLocal(c, heap, u, v.items + [Num(0)], |v.items|, o, q);
    case Map(e) =>
      var a, b := WriteSize(c, |v.items|, o), WriteSize(c, |v.items|, q);
      if a.Ok? {
        PlainElemsAreLocal(c, heap, e, v.items, Null, a.value, Null, b.value);
      }
  }

  lemma {:induction false} PlainItemsAreLocal(c: Context, heap: Heap, e: Type, vs: seq<Value>, n: nat, o: Out, q: Out)
    requires Writable(c, heap, e) && ElemsTyped(e, vs, heap) && NoPointers(e) && !c.flags.checkRecursivePointers
    requires o.bin == q.bin
    ensures var a, b := WriteSize(c, n, o), WriteSize(c, n, q);
            SameWrite(if a.Ok? then WriteArray(c, heap, e, vs, Null, a.value) else a,
                      if b.Ok? then WriteArray(c, heap, e, vs, Null, b.value) else b, o)
    decreases e, |vs| + 3
  {
    var a, b := WriteSize(c, n, o), WriteSize(c, n, q);
    if a.Ok? {
      PlainArrayIsLocal(c, heap, e, vs, Null, a.value, Null, b.value);
    }
  }

  lemma {:induction false} PlainFieldsAreLocal(c: Context, heap: Heap, ts: seq<Type>, vs: seq<Value>, lead: Ref, o: Out,
                                               l: Ref, q: Out)
    requires FieldsWritable(c, heap, ts, vs) && !c.flags.checkRecursivePointers && forall t | t in ts :: NoPointers(t)
    requires AtLead(lead, o) && AtLead(l, q) && o.bin == q.bin
    ensures SameWrite(WriteFields(c, heap, ts, vs, lead, o), WriteFields(c, heap, ts, vs, l, q), o)
    decreases ts, 0
  {
    if ts != [] {
      WriteFieldsUnfolds(c, heap, ts, vs, lead, o);
      WriteFieldsUnfolds(c, heap, ts, vs, l, q);
      PlainWriteIsLocal(c, heap, ts[0], vs[0], lead, o, l, q);
      var a, b := Write(c, heap, ts[0], vs[0], lead, o), Write(c, heap, ts[0], vs[0], l, q);
      if a.Ok? {
        PlainFieldsAreLocal(c, heap, ts[1..], vs[1..], Null, a.value, Null, b.value);
      }
    }
  }

  lemma {:induction false} PlainArrayIsLocal(c: Context, heap: Heap, e: Type, vs: seq<Value>, lead: Ref, o: Out, l: Ref,
                                             q: Out)
    requires Writable(c, heap, e) && ElemsTyped(e, vs, heap) && NoPointers(e) && !c.flags.checkRecursivePointers
    requires AtLead(lead, o) && AtLead(l, q) && o.bin == q.bin
    ensures SameWrite(WriteArray(c, heap, e, vs, lead, o), WriteArray(c, heap, e, vs, l, q), o)
    decreases e, |vs| + 2
  {
    if !(e.Struct? && e.tags.empty) && !RawBlock(c, e) {
      PlainElemsAreLocal(c, heap, e, vs, lead, o, l, q);
    }
  }

  lemma {:induction false} PlainElemsAreLocal(c: Context, heap: Heap, e: Type, vs: seq<Value>, lead: Ref, o: Out,
                                              l: Ref, q: Out)
    requires Writable(c, heap, e) && ElemsTyped(e, vs, heap) && NoPointers(e) && !c.flags.checkRecursivePointers
    requires AtLead(lead, o) && AtLead(l, q) && o.bin == q.bin
    ensures SameWrite(WriteElems(c, heap, e, vs, false, lead, o), WriteElems(c, heap, e, vs, false, l, q), o)
    decreases e, |vs| + 1
  {
    if vs != [] {
      WriteElemsUnfolds(c, heap, e, vs, false, lead, o);
      WriteElemsUnfolds(c, heap, e, vs, false, l, q);
      PlainWriteIsLocal(c, heap, e, vs[0], lead, o, l, q);
      var a, b := Write(c, heap, e, vs[0], lead, o), Write(c, heap, e, vs[0], l, q);
      if a.Ok? {
        PlainElemsAreLocal(c, heap, e, vs[1..], Null, a.value, Null, b.value);
      }
    }
  }

  // ---------------------------------------------------------------- what the reader makes of it

  /** How many objects are made: one for every pointer met that is not null. */
  function Objects(types: map<nat, Type>, t: Type, u: Value): nat
    decreases u, 1
  {
    if NoPointers(t) || !u.Items? then 0
    else if t.Pointer? then
      if u.items == [] || t.target !in types then 0 else 1 + Objects(types, types[t.target], u.items[0])
    else AllObjects(types, Kids(t, |u.items|), u.items)
  }

  function AllObjects(types: map<nat, Type>, ts: seq<Type>, us: seq<Value>): nat
    decreases us, 0
  {
    if us == [] || ts == [] then 0 else Objects(types, ts[0], us[0]) + AllObjects(types, ts[1..], us[1..])
  }

  /** The integers that travel are in range for the reader's types. */
  ghost predicate FitsTree(c: Context, t: Type, u: Value)
    decreases u, 1
  {
    if NoPointers(t) then Fits(c, t, u)
    else if !u.Items? then true
    else if t.Pointer? then u.items == [] || (t.target in c.types && FitsTree(c, c.types[t.target], u.items[0]))
    else AllFitTrees(c, Kids(t, |u.items|), u.items)
  }

  ghost predicate AllFitTrees(c: Context, ts: seq<Type>, us: seq<Value>)
    decreases us, 0
  {
    us == [] || ts == [] || (FitsTree(c, ts[0], us[0]) && AllFitTrees(c, ts[1..], us[1..]))
  }

  /** The unfolding as it settles, the next object being number `next`. */
  function SettledTree(c: Context, t: Type, u: Value, at: Place, next: nat): Value
    decreases u, 1
  {
    if NoPointers(t) then Settled(c, t, u, at)
    else if !u.Items? then u
    else if t.Pointer? then
      if u.items == [] || t.target !in c.types then Items([])
      else Items([SettledTree(c, c.types[t.target], u.items[0], Object(next), next + 1)])
    else
      var ws := SettledTrees(c, Kids(t, |u.items|), u.items, Row(at, t.Struct? || t.Array?), 0, next);
      Items(if t.Map? then InsertAll([], ws) else ws)
  }

  function SettledTrees(c: Context, ts: seq<Type>, us: seq<Value>, row: Row, k: nat, next: nat): seq<Value>
    decreases us, 0
  {
    if us == [] || ts == [] then [] else
      [SettledTree(c, ts[0], us[0], Spot(row, k), next)]
      + SettledTrees(c, ts[1..], us[1..], row, k + 1, next + Objects(c.types, ts[0], us[0]))
  }

  // ---------------------------------------------------------------- reading

  /** The marker and what follows it. */
  lemma UncheckedPointerReads(r: Context, bin: Bin, name: nat, at: Place, s: In)
    requires Readable(r, bin, Pointer(name), s)
    requires r.flags.allowUnmanagedPointers && !r.flags.checkRecursivePointers
    ensures |bin| <= s.cursor ==> Read(r, bin, Pointer(name), at, s) == Err(ErrorOverflow)
    ensures s.cursor < |bin| && bin[s.cursor] == 0 ==>
              Read(r, bin, Pointer(name), at, s) == Ok((Link(Null), s.(cursor := s.cursor + 1)))
    ensures s.cursor < |bin| && bin[s.cursor] != 0 ==>
              var entered := s.(cursor := s.cursor + 1, next := s.next + 1);
              && name in r.types && Readable(r, bin, r.types[name], entered)
              && var pointee := Read(r, bin, r.types[name], Object(s.next), entered);
                 Read(r, bin, Pointer(name), at, s) ==
                 if pointee.Err? then Err(pointee.error) else
                   Ok((Link(Node(s.next)),
                       pointee.value.1.(made := pointee.value.1.made[s.next := Cell(name, pointee.value.0)])))
  {
  }

  /** Values of these types, one after the other. */
  ghost function ReadList(c: Context, bin: Bin, ts: seq<Type>, row: Row, k: nat, s: In): (r: Result<(seq<Value>, In)>)
    requires FieldsReadable(c, ts) && Fresh(s) && s.cursor <= |bin|
    ensures r.Ok? ==> Advances(bin, s, r.value.1)
  {
    if ts == [] then Ok(([], s)) else
      var (v, next) :- Read(c, bin, ts[0], Spot(row, k), s);
      var (vs, last) :- ReadList(c, bin, ts[1..], row, k + 1, next);
      Ok(([v] + vs, last))
  }

  lemma {:induction false} FieldsAreList(c: Context, bin: Bin, ts: seq<Type>, whole: Place, k: nat, s: In)
    requires FieldsReadable(c, ts) && Fresh(s) && s.cursor <= |bin|
    ensures ReadFields(c, bin, ts, whole, k, s) == ReadList(c, bin, ts, Row(whole, true), k, s)
    decreases ts
  {
    if ts != [] {
      var head := Read(c, bin, ts[0], Part(whole, k), s);
      ReadFieldsUnfolds(c, bin, ts, whole, k, s);
      if head.Ok? {
        FieldsAreList(c, bin, ts[1..], whole, k + 1, head.value.1);
      }
    }
  }

  lemma {:induction false} ElemsAreList(c: Context, bin: Bin, e: Type, n: nat, row: Row, k: nat, s: In)
    requires Readable(c, bin, e, s)
    ensures FieldsReadable(c, Repeat(e, n))
    ensures ReadElems(c, bin, e, n, false, row, k, s) == ReadList(c, bin, Repeat(e, n), row, k, s)
    decreases n
  {
    if n != 0 {
      var head := Read(c, bin, e, Spot(row, k), s);
      ReadElemsUnfolds(c, bin, e, n, false, row, k, s, s);
      assert Repeat(e, n)[1..] == Repeat(e, n - 1);
      if head.Ok? {
        ElemsAreList(c, bin, e, n - 1, row, k + 1, head.value.1);
      }
    }
  }

  lemma NoRawPointers(c: Context, e: Type)
    requires TypeOk(e) && !NoPointers(e)
    ensures !e.Prim? && !(e.Struct? && e.tags.empty) && !RawBlock(c, e)
    ensures e.Struct? ==> !AnySimplyAssignable(e.tags)
  {
    if e.Struct? && AnySimplyAssignable(e.tags) {
      PlainHasNoPointers(e);
    }
  }

  /** A struct or a container that holds pointers is read part by part. */
  lemma ContainerReads(r: Context, bin: Bin, b: Type, n: nat, at: Place, s: In, after: In)
    requires Readable(r, bin, b, s) && !NoPointers(b) && !b.Pointer? && !r.flags.checkRecursivePointers
    requires if b.Vector? || b.Map? then ReadSize(r, bin, s) == Ok((n, after)) else after == s
    requires b.Array? ==> n == b.size
    ensures FieldsReadable(r, Kids(b, n)) && Fresh(after) && after.cursor <= |bin|
    ensures var got := ReadList(r, bin, Kids(b, n), Row(at, b.Struct? || b.Array?), 0, after);
            Read(r, bin, b, at, s) == if b.Map? then AllInserted(got, [], []) else Wrapped(got)
  {
    NoRawPointers(r, b);
    if b.Struct? {
      ReadStructUnfolds(r, bin, b, at, s);
      FieldsAreList(r, bin, b.fields, at, 0, s);
    } else if b.Map? {
      ReadMapUnfolds(r, bin, b, n, at, s, after);
      ElemsAreList(r, bin, b.entry, n, Row(at, false), 0, after);
    } else {
      NoRawPointers(r, b.elem);
      ReadCountedUnfolds(r, bin, b, n, at, s, after);
      ElemsAreList(r, bin, b.elem, n, Row(at, b.Array?), 0, after);
    }
  }

  // ---------------------------------------------------------------- the theorem

  ghost predicate MadeKept(s: In, t: In) {
    forall id | id in s.made :: id in t.made && t.made[id] == s.made[id]
  }

  /** `x` unfolds to `w`; for each pointer met that is not null one object has been made since `s`. */
  ghost predicate TreeMade(types: map<nat, Type>, b: Type, x: Value, w: Value, s: In, t: In, end: nat, objects: nat) {
    && t.cursor == end && t.next == s.next + objects && MadeKept(s, t)
    && Unfolds(types, t.made, b, x, w)
  }

  ghost predicate TreeRead(r: Context, b: Type, u: Value, at: Place, got: Result<(Value, In)>, s: In, end: nat) {
    && (got.Ok? <==> FitsTree(r, b, u))
    && (got.Err? ==> got.error == ErrorValueOverflow)
    && (got.Ok? ==> TreeMade(r.types, b, got.value.0, SettledTree(r, b, u, at, s.next), s, got.value.1, end,
                             Objects(r.types, b, u)))
  }

  ghost predicate ListMade(types: map<nat, Type>, bs: seq<Type>, xs: seq<Value>, ws: seq<Value>, s: In, t: In, end: nat,
                           objects: nat) {
    && t.cursor == end && t.next == s.next + objects && MadeKept(s, t)
    && UnfoldAll(types, t.made, bs, xs, ws)
  }

  ghost predicate ListRead(r: Context, bs: seq<Type>, us: seq<Value>, row: Row, k: nat, got: Result<(seq<Value>, In)>,
                           s: In, end: nat) {
    && (got.Ok? <==> AllFitTrees(r, bs, us))
    && (got.Err? ==> got.error == ErrorValueOverflow)
    && (got.Ok? ==> ListMade(r.types, bs, got.value.0, SettledTrees(r, bs, us, row, k, s.next), s, got.value.1, end,
                             AllObjects(r.types, bs, us)))
  }

  /** A writer of `t` and a reader of `b`, at the same offset. */
  ghost predicate TreeReady(w: Context, r: Context, heap: Heap, t: Type, b: Type, u: Value, before: seq<Byte>, bin: Bin,
                            s: In) {
    && Setup(w, r, heap) && Paired(w, r, t, b) && Treeable(w, heap, t) && TreeTyped(w.types, heap, t, u)
    && s.cursor == |before| && Fresh(s)
    && WriteTree(w, heap, t, u, before).Ok? && WriteTree(w, heap, t, u, before).value <= bin
  }

  ghost predicate ListReady(w: Context, r: Context, heap: Heap, ts: seq<Type>, bs: seq<Type>, us: seq<Value>,
                            before: seq<Byte>, bin: Bin, s: In) {
    && Setup(w, r, heap) && PairedFields(w, r, ts, bs)
    && AllTreeable(w, heap, ts) && AllTreeTyped(w.types, heap, ts, us)
    && s.cursor == |before| && Fresh(s)
    && WriteTrees(w, heap, ts, us, before).Ok? && WriteTrees(w, heap, ts, us, before).value <= bin
  }

  lemma TreeReadable(w: Context, r: Context, heap: Heap, t: Type, b: Type, u: Value, before: seq<Byte>, bin: Bin, s: In)
    requires TreeReady(w, r, heap, t, b, u, before, bin, s)
    ensures Readable(r, bin, b, s)
  {
  }

  lemma ListReadable(w: Context, r: Context, heap: Heap, ts: seq<Type>, bs: seq<Type>, us: seq<Value>,
                     before: seq<Byte>, bin: Bin, s: In)
    requires ListReady(w, r, heap, ts, bs, us, before, bin, s)
    ensures FieldsReadable(r, bs) && s.cursor <= |bin|
  {
  }

  /** What is read back is the unfolding of what was written, in new objects, one for each non-null pointer met. */
  lemma {:induction false} TreeArrives(w: Context, r: Context, heap: Heap, t: Type, b: Type, u: Value,
                                       before: seq<Byte>, bin: Bin, at: Place, s: In)
    requires TreeReady(w, r, heap, t, b, u, before, bin, s)
    ensures Readable(r, bin, b, s)
    ensures TreeRead(r, b, u, at, Read(r, bin, b, at, s), s, |WriteTree(w, heap, t, u, before).value|)
    decreases u, 1
  {
    TreeReadable(w, r, heap, t, b, u, before, bin, s);
    PointersAgree(w.flags, t, b);
    if NoPointers(t) {
      PlainTreeArrives(w, r, heap, t, b, u, before, bin, at, s);
    } else if t.Pointer? {
      PointerTreeArrives(w, r, heap, t, b, u, before, bin, at, s);
    } else {
      ContainerTreeArrives(w, r, heap, t, b, u, before, bin, at, s);
    }
  }

  lemma PlainTreeArrives(w: Context, r: Context, heap: Heap, t: Type, b: Type, u: Value, before: seq<Byte>, bin: Bin,
                         at: Place, s: In)
    requires TreeReady(w, r, heap, t, b, u, before, bin, s) && Readable(r, bin, b, s) && NoPointers(t) && NoPointers(b)
    ensures TreeRead(r, b, u, at, Read(r, bin, b, at, s), s, |WriteTree(w, heap, t, u, before).value|)
  {
    var p := Body(w, heap, t, u, before).value;
    assert bin == p.bin + bin[|p.bin|..];
    PlainRoundTrip(w, r, heap, t, b, u, before, bin[|p.bin|..], at, s);
    var got := Read(r, bin, b, at, s);
    assert got.Ok? ==> Advances(bin, s, got.value.1);
  }

  lemma {:induction false} PointerTreeArrives(w: Context, r: Context, heap: Heap, t: Type, b: Type, u: Value,
                                              before: seq<Byte>, bin: Bin, at: Place, s: In)
    requires TreeReady(w, r, heap, t, b, u, before, bin, s) && Readable(r, bin, b, s) && t.Pointer?
    ensures TreeRead(r, b, u, at, Read(r, bin, b, at, s), s, |WriteTree(w, heap, t, u, before).value|)
    decreases u, 0
  {
    var name := t.target;
    UncheckedPointerReads(r, bin, name, at, s);
    if u.items != [] {
      var entered := s.(cursor := s.cursor + 1, next := s.next + 1);
      PairedPointee(w, r, name);
      assert bin[|before|] == (before + [1])[|before|];
      TreeArrives(w, r, heap, w.types[name], r.types[name], u.items[0], before + [1], bin, Object(s.next), entered);
      var pointee := Read(r, bin, r.types[name], Object(s.next), entered);
      PointerMade(r, name, u, at, pointee, Read(r, bin, b, at, s), bin, s, entered,
                  |WriteTree(w, heap, t, u, before).value|);
    } else {
      assert bin[|before|] == (before + [0])[|before|];
    }
  }

  lemma PointerMade(r: Context, name: nat, u: Value, at: Place, pointee: Result<(Value, In)>, got: Result<(Value, In)>,
                    bin: Bin, s: In, entered: In, end: nat)
    requires u.Items? && |u.items| == 1 && name in r.types && Fresh(s)
    requires entered == s.(cursor := s.cursor + 1, next := s.next + 1)
    requires TreeRead(r, r.types[name], u.items[0], Object(s.next), pointee, entered, end)
    requires pointee.Ok? ==> Advances(bin, entered, pointee.value.1)
    requires got == if pointee.Err? then Err(pointee.error) else
                      Ok((Link(Node(s.next)),
                          pointee.value.1.(made := pointee.value.1.made[s.next := Cell(name, pointee.value.0)])))
    ensures TreeRead(r, Pointer(name), u, at, got, s, end)
  {
    if pointee.Ok? {
      var x, last, made := pointee.value.0, pointee.value.1, got.value.1.made;
      assert s.next !in last.made;
      UnfoldsGrows(r.types, last.made, made, r.types[name], x, SettledTree(r, r.types[name], u.items[0], Object(s.next),
                                                                           s.next + 1));
    }
  }

  lemma KidsPaired(w: Context, r: Context, t: Type, b: Type, n: nat)
    requires Paired(w, r, t, b)
    ensures PairedFields(w, r, Kids(t, n), Kids(b, n))
  {
    PairedParts(w, r, t, b);
  }

  lemma {:induction false} ContainerTreeArrives(w: Context, r: Context, heap: Heap, t: Type, b: Type, u: Value,
                                                before: seq<Byte>, bin: Bin, at: Place, s: In)
    requires TreeReady(w, r, heap, t, b, u, before, bin, s) && Readable(r, bin, b, s)
    requires !NoPointers(t) && !NoPointers(b)
    requires !t.Pointer?
    ensures TreeRead(r, b, u, at, Read(r, bin, b, at, s), s, |WriteTree(w, heap, t, u, before).value|)
    decreases u, 0
  {
    var n, row := |u.items|, Row(at, b.Struct? || b.Array?);
    var sized := Counted(w, t, n, before).value;
    var after := s.(cursor := |sized|);
    CountArrives(w, r, t, b, n, before, bin, s);
    KidsTreeable(w, heap, t, n);
    KidsPaired(w, r, t, b, n);
    ListArrives(w, r, heap, Kids(t, n), Kids(b, n), u.items, sized, bin, row, 0, after);
    ContainerReads(r, bin, b, n, at, s, after);
    var got := ReadList(r, bin, Kids(b, n), row, 0, after);
    ContainerMade(r, b, u, at, got, Read(r, bin, b, at, s), s, after, |WriteTree(w, heap, t, u, before).value|);
  }

  lemma CountArrives(w: Context, r: Context, t: Type, b: Type, n: nat, before: seq<Byte>, bin: Bin, s: In)
    requires w.flags == r.flags && (b.Vector? <==> t.Vector?) && (b.Map? <==> t.Map?) && s.cursor == |before|
    requires Counted(w, t, n, before).Ok? && Counted(w, t, n, before).value <= bin
    ensures var after := s.(cursor := |Counted(w, t, n, before).value|);
            if b.Vector? || b.Map? then ReadSize(r, bin, s) == Ok((n, after)) else after == s
  {
    if b.Vector? || b.Map? {
      SizeArrives(w, r, n, Begun(before), bin, s);
    }
  }

  lemma ContainerMade(r: Context, b: Type, u: Value, at: Place, list: Result<(seq<Value>, In)>,
                      got: Result<(Value, In)>, s: In, after: In, end: nat)
    requires !NoPointers(b) && !b.Pointer? && TypeOk(b) && u.Items? && after == s.(cursor := after.cursor)
    requires ListRead(r, Kids(b, |u.items|), u.items, Row(at, b.Struct? || b.Array?), 0, list, after, end)
    requires got == if b.Map? then AllInserted(list, [], []) else Wrapped(list)
    ensures TreeRead(r, b, u, at, got, s, end)
  {
    if list.Ok? {
      var ws := SettledTrees(r, Kids(b, |u.items|), u.items, Row(at, b.Struct? || b.Array?), 0, s.next);
      if b.Map? {
        InsertAllUnfolds(r.types, list.value.1.made, b.entry, [], [], list.value.0, ws);
        MapUnfolds(r.types, list.value.1.made, b, InsertAll([], list.value.0), InsertAll([], ws));
      }
    }
  }

  lemma MapUnfolds(types: map<nat, Type>, heap: Heap, b: Type, xs: seq<Value>, ws: seq<Value>)
    requires b.Map? && !NoPointers(b) && UnfoldAll(types, heap, Repeat(b.entry, |ws|), xs, ws)
    ensures Unfolds(types, heap, b, Items(xs), Items(ws))
  {
  }

  /** Which entries a map keeps is the same before and after unfolding. */
  lemma {:induction false} InsertAllUnfolds(types: map<nat, Type>, heap: Heap, e: Type, got: seq<Value>,
                                            kept: seq<Value>, xs: seq<Value>, ws: seq<Value>)
    requires TypeOk(Map(e)) && !NoPointers(e)
    requires UnfoldAll(types, heap, Repeat(e, |kept|), got, kept) && UnfoldAll(types, heap, Repeat(e, |ws|), xs, ws)
    ensures var all := InsertAll(kept, ws);
            UnfoldAll(types, heap, Repeat(e, |all|), InsertAll(got, xs), all)
    decreases xs
  {
    if xs != [] {
      assert Unfolds(types, heap, Repeat(e, |ws|)[0], xs[0], ws[0]);
      PresentUnfolds(types, heap, e, got, kept, xs[0], ws[0]);
      forall i | 0 <= i < |ws| - 1 ensures Unfolds(types, heap, e, xs[1..][i], ws[1..][i]) {
        assert Unfolds(types, heap, Repeat(e, |ws|)[i + 1], xs[i + 1], ws[i + 1]);
      }
      InsertAllUnfolds(types, heap, e, Insert(got, xs[0]), Insert(kept, ws[0]), xs[1..], ws[1..]);
    }
  }

  lemma PresentUnfolds(types: map<nat, Type>, heap: Heap, e: Type, got: seq<Value>, kept: seq<Value>, x: Value,
                       w: Value)
    requires TypeOk(Map(e)) && !NoPointers(e) && UnfoldAll(types, heap, Repeat(e, |kept|), got, kept)
    requires Unfolds(types, heap, e, x, w)
    ensures Present(got, x) <==> Present(kept, w)
    ensures UnfoldAll(types, heap, Repeat(e, |Insert(kept, w)|), Insert(got, x), Insert(kept, w))
  {
    EntryUnfolds(types, heap, e, x, w);
    forall i | 0 <= i < |kept| ensures SameKey(got[i], x) <==> SameKey(kept[i], w) {
      assert Unfolds(types, heap, Repeat(e, |kept|)[i], got[i], kept[i]);
      EntryUnfolds(types, heap, e, got[i], kept[i]);
    }
    if Present(got, x) {
      var i :| 0 <= i < |got| && SameKey(got[i], x);
      assert SameKey(kept[i], w);
    }
    forall i | 0 <= i < |Insert(kept, w)| ensures Unfolds(types, heap, e, Insert(got, x)[i], Insert(kept, w)[i]) {
      if i < |kept| {
        assert Unfolds(types, heap, Repeat(e, |kept|)[i], got[i], kept[i]);
      }
    }
  }

  lemma EntryUnfolds(types: map<nat, Type>, heap: Heap, e: Type, x: Value, w: Value)
    requires TypeOk(Map(e)) && !NoPointers(e) && Unfolds(types, heap, e, x, w)
    ensures IsEntry(x) && IsEntry(w) && x.items[0] == w.items[0]
  {
    assert Kids(e, |w.items|) == e.fields;
    assert Unfolds(types, heap, e.fields[0], x.items[0], w.items[0]);
  }

  lemma {:induction false} ListArrives(w: Context, r: Context, heap: Heap, ts: seq<Type>, bs: seq<Type>, us: seq<Value>,
                                       before: seq<Byte>, bin: Bin, row: Row, k: nat, s: In)
    requires ListReady(w, r, heap, ts, bs, us, before, bin, s)
    ensures FieldsReadable(r, bs) && s.cursor <= |bin|
    ensures ListRead(r, bs, us, row, k, ReadList(r, bin, bs, row, k, s), s, |WriteTrees(w, heap, ts, us, before).value|)
    decreases us, 0
  {
    ListReadable(w, r, heap, ts, bs, us, before, bin, s);
    if us != [] {
      var next := WriteTree(w, heap, ts[0], us[0], before).value;
      TreeArrives(w, r, heap, ts[0], bs[0], us[0], before, bin, Spot(row, k), s);
      var head := Read(r, bin, bs[0], Spot(row, k), s);
      if head.Ok? {
        ListArrives(w, r, heap, ts[1..], bs[1..], us[1..], next, bin, row, k + 1, head.value.1);
        ListJoins(r, bin, bs, us, row, k, head, ReadList(r, bin, bs[1..], row, k + 1, head.value.1), s, |next|,
                  |WriteTrees(w, heap, ts, us, before).value|);
      }
    }
  }

  lemma ListJoins(r: Context, bin: Bin, bs: seq<Type>, us: seq<Value>, row: Row, k: nat, head: Result<(Value, In)>,
                  tail: Result<(seq<Value>, In)>, s: In, middle: nat, end: nat)
    requires |bs| == |us| && us != [] && head.Ok?
    requires TreeRead(r, bs[0], us[0], Spot(row, k), head, s, middle)
    requires ListRead(r, bs[1..], us[1..], row, k + 1, tail, head.value.1, end)
    ensures ListRead(r, bs, us, row, k, Prepend(head, tail), s, end)
  {
    if tail.Ok? {
      var ws := SettledTrees(r, bs, us, row, k, s.next);
      var made := tail.value.1.made;
      UnfoldsGrows(r.types, head.value.1.made, made, bs[0], head.value.0, ws[0]);
      var xs := [head.value.0] + tail.value.0;
      assert ws[1..] == SettledTrees(r, bs[1..], us[1..], row, k + 1, head.value.1.next);
      forall i | 0 <= i < |ws| ensures Unfolds(r.types, made, bs[i], xs[i], ws[i]) {
        if i != 0 {
          assert Unfolds(r.types, made, bs[1..][i - 1], tail.value.0[i - 1], ws[1..][i - 1]);
        }
      }
    }
  }

  /**
    * A value written without the check of recursive pointers: if it has an unfolding, the reader makes a value of the
    * same unfolding, as it settles, with an object of its own for every non-null pointer met. Nothing is shared, and
    * the only failure is an integer that does not fit.
    */
  lemma UnfoldingRoundTrip(w: Context, r: Context, heap: Heap, t: Type, b: Type, v: Value, u: Value, before: seq<Byte>,
                           rest: seq<Byte>, at: Place, s: In)
    requires Setup(w, r, heap) && Paired(w, r, t, b) && Treeable(w, heap, t) && HasType(t, v, heap)
    requires Unfolds(w.types, heap, t, v, u) && s.cursor == |before| && Fresh(s)
    ensures TreeTyped(w.types, heap, t, u)
    ensures var p := WriteTree(w, heap, t, u, before);
            p.Ok? ==>
              && Readable(r, p.value + rest, b, s)
              && TreeRead(r, b, u, at, Read(r, p.value + rest, b, at, s), s, |p.value|)
  {
    UnfoldingTyped(w, heap, t, v, u);
    if WriteTree(w, heap, t, u, before).Ok? {
      TreeArrives(w, r, heap, t, b, u, before, WriteTree(w, heap, t, u, before).value + rest, at, s);
    }
  }
}
