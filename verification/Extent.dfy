/** How far a write reaches and where its objects begin, told without writing, and exactly when a write succeeds. */
module Extent {
  import opened Status
  import opened Bytes
  import opened Types
  import opened Layout
  import opened Writer
  import opened Steps
  import opened Wire
  import opened Graph
  import opened Isomorphism

  /** The octets so far, the offsets of the objects met, and the greatest of them that has been referred to again. */
  datatype Tally = Tally(at: nat, met: map<nat, nat>, farthest: nat)

  ghost function Unmet(heap: Heap, s: Tally): set<nat> {
    set a | a in heap && a !in s.met
  }

  ghost predicate Follows(s: Tally, z: Tally) {
    s.at <= z.at && s.farthest <= z.farthest && forall a | a in s.met :: a in z.met && z.met[a] == s.met[a]
  }

  function ScalarExtent(f: Flags, s: Scalar): nat {
    s.width + if f.sizeOfIntegersMayBeNotEqual && !s.fixed then 1 else 0
  }

  /** The octets that a value takes, with those of the objects met for the first time. */
  ghost function Measure(c: Context, heap: Heap, t: Type, v: Value, s: Tally): (z: Tally)
    requires Writable(c, heap, t) && HasType(t, v, heap)
    ensures Follows(s, z)
    decreases Unmet(heap, s), t, 0
  {
    match t
    case Prim(sc) => s.(at := s.at + ScalarExtent(c.flags, sc))
    case Pointer(name) =>
      var at := s.at + SizeOctets(c.flags);
      if !c.flags.allowUnmanagedPointers || v.ref.Null? then s.(at := at)
      else if v.ref.id in s.met then
        s.(at := at, farthest := if s.farthest < s.met[v.ref.id] then s.met[v.ref.id] else s.farthest)
      else
        var entered := s.(at := at, met := s.met[v.ref.id := at]);
        assert v.ref.id in Unmet(heap, s) && v.ref.id !in Unmet(heap, entered);
        Measure(c, heap, c.types[name], heap[v.ref.id].value, entered)
    case Struct(tags, _, own, fields, _) =>
      if CopiesRaw(c.flags, c.interfaceVersion, t) then s.(at := s.at + RawSize(t))
      else if AnySimplyAssignable(tags) && !own then s
      else MeasureFields(c, heap, fields, v.items, s)
    case Array(e, _) => MeasureItems(c, heap, e, v.items, s)
    case Vector(e) => MeasureItems(c, heap, e, v.items, s.(at := s.at + SizeOctets(c.flags)))
    case String(u) => MeasureItems(c, heap, u, v.items + [Num(0)], s.(at := s.at + SizeOctets(c.flags)))
    case Map(e) => MeasureEach(c, heap, e, v.items, s.(at := s.at + SizeOctets(c.flags)))
  }

  ghost function MeasureFields(c: Context, heap: Heap, ts: seq<Type>, vs: seq<Value>, s: Tally): (z: Tally)
    requires FieldsWritable(c, heap, ts, vs)
    ensures Follows(s, z)
    decreases Unmet(heap, s), ts, 0
  {
    if ts == [] then s else
      MeasureFields(c, heap, ts[1..], vs[1..], Measure(c, heap, ts[0], vs[0], s))
  }

  ghost function MeasureItems(c: Context, heap: Heap, e: Type, vs: seq<Value>, s: Tally): (z: Tally)
    requires Writable(c, heap, e) && ElemsTyped(e, vs, heap)
    ensures Follows(s, z)
    decreases Unmet(heap, s), e, |vs| + 2
  {
    if e.Struct? && e.tags.empty then s
    else if ElemsCopiedRaw(c.flags, c.interfaceVersion, e) then
      s.(at := s.at + BlockSize(RawSize(e), |vs|)
               + if e.Prim? then ScalarExtent(c.flags, e.scalar) - e.scalar.width else 0)
    else MeasureEach(c, heap, e, vs, s)
  }

  ghost function MeasureEach(c: Context, heap: Heap, e: Type, vs: seq<Value>, s: Tally): (z: Tally)
    requires Writable(c, heap, e) && ElemsTyped(e, vs, heap)
    ensures Follows(s, z)
    decreases Unmet(heap, s), e, |vs| + 1
  {
    if vs == [] then s else
      MeasureEach(c, heap, e, vs[1..], Measure(c, heap, e, vs[0], s))
  }

  // ---------------------------------------------------------------- what can be written

  /**
    * Nothing in the value is refused: pointers stand only where they are allowed, every tagged struct without
    * functions of its own travels raw or is passed over, and numbers of items fit.
    */
  predicate Admits(c: Context, t: Type, v: Value)
    decreases v, 0
  {
    match t
    case Prim(_) => true
    case Pointer(_) => c.flags.allowUnmanagedPointers
    case Struct(tags, _, own, fields, _) =>
      || CopiesRaw(c.flags, c.interfaceVersion, t)
      || PassedOver(c.flags, c.interfaceVersion, t)
      || ((own || !AnySimplyAssignable(tags)) && (v.Items? ==> AdmitsFields(c, fields, v.items)))
    case Array(e, _) => v.Items? ==> AdmitsItems(c, e, v.items)
    case Vector(e) => v.Items? ==> |v.items| < SizeLimit(c.flags) && AdmitsItems(c, e, v.items)
    case String(_) => v.Items? ==> |v.items| < SizeLimit(c.flags)
    case Map(e) => v.Items? ==> |v.items| < SizeLimit(c.flags) && AdmitsEach(c, e, v.items)
  }

  predicate AdmitsFields(c: Context, ts: seq<Type>, vs: seq<Value>)
    decreases vs, 0
  {
    ts == [] || vs == [] || (Admits(c, ts[0], vs[0]) && AdmitsFields(c, ts[1..], vs[1..]))
  }

  predicate AdmitsItems(c: Context, e: Type, vs: seq<Value>)
    decreases vs, 1
  {
    (e.Struct? && e.tags.empty) || ElemsCopiedRaw(c.flags, c.interfaceVersion, e) || AdmitsEach(c, e, vs)
  }

  predicate AdmitsEach(c: Context, e: Type, vs: seq<Value>)
    decreases vs, 0
  {
    vs == [] || (Admits(c, e, vs[0]) && AdmitsEach(c, e, vs[1..]))
  }

  /** Every object met between `s` and `z` can be written. */
  ghost predicate MetAdmitted(c: Context, heap: Heap, s: Tally, z: Tally) {
    forall a | a in z.met && a !in s.met ::
      a in heap && heap[a].name in c.types && Admits(c, c.types[heap[a].name], heap[a].value)
  }

  /** Every offset that has been referred to fits into the octets of a size. */
  predicate OffsetsFit(c: Context, s: Tally) {
    s.farthest < SizeLimit(c.flags)
  }

  /** The tally of an output. */
  ghost predicate Tallies(o: Out, s: Tally) {
    && s.at == |o.bin|
    && forall a :: (Node(a) in o.seen <==> a in s.met) && (a in s.met ==> s.met[a] == o.seen[Node(a)])
  }

  /** What a write comes to: it succeeds exactly when all that it meets is admitted, and is then as long as measured. */
  ghost predicate Matches(c: Context, heap: Heap, got: Result<Out>, admitted: bool, s: Tally, z: Tally) {
    && (got.Ok? <==> admitted && MetAdmitted(c, heap, s, z) && OffsetsFit(c, z))
    && (got.Ok? ==> Tallies(got.value, z))
  }

  lemma SizeExtent(c: Context, n: nat, o: Out, s: Tally)
    requires Tallies(o, s)
    ensures WriteSize(c, n, o).Ok? <==> n < SizeLimit(c.flags)
    ensures n < SizeLimit(c.flags) ==> Tallies(WriteSize(c, n, o).value, s.(at := s.at + SizeOctets(c.flags)))
  {
    SizeIsSpelt(c, n, o);
  }

  /** Octets that hold no pointers. */
  lemma OctetsMatch(c: Context, heap: Heap, o: Out, s: Tally, octets: seq<Byte>)
    requires Tallies(o, s) && OffsetsFit(c, s)
    ensures Matches(c, heap, Ok(Append(o, octets)), true, s, s.(at := s.at + |octets|))
  {
  }

  lemma TwoMatch(c: Context, heap: Heap, head: Result<Out>, got: Result<Out>, first: bool, rest: bool, s: Tally,
                 m: Tally, z: Tally)
    requires Follows(s, m) && Follows(m, z) && Matches(c, heap, head, first, s, m)
    requires if head.Ok? then Matches(c, heap, got, rest, m, z) else got == head
    ensures Matches(c, heap, got, first && rest, s, z)
  {
    assert MetAdmitted(c, heap, s, z) <==> MetAdmitted(c, heap, s, m) && MetAdmitted(c, heap, m, z);
  }

  // ---------------------------------------------------------------- what is met

  ghost predicate NewInside(s: Tally, z: Tally, within: set<nat>) {
    forall a | a in z.met && a !in s.met :: a in within
  }

  lemma {:induction false} MetIsInside(c: Context, heap: Heap, t: Type, v: Value, s: Tally, within: set<nat>)
    requires Writable(c, heap, t) && HasType(t, v, heap) && Closed(heap, within) && Inside(v, within)
    ensures NewInside(s, Measure(c, heap, t, v, s), within)
    decreases Unmet(heap, s), t, 0
  {
    match t
    case Prim(_) =>
    case Pointer(name) =>
      if c.flags.allowUnmanagedPointers && v.ref.Node? && v.ref.id !in s.met {
        var entered := s.(at := s.at + SizeOctets(c.flags), met := s.met[v.ref.id := s.at + SizeOctets(c.flags)]);
        assert v.ref.id in Unmet(heap, s) && v.ref.id !in Unmet(heap, entered);
        MetIsInside(c, heap, c.types[name], heap[v.ref.id].value, entered, within);
      }
    case Struct(tags, _, own, fields, _) =>
      if !CopiesRaw(c.flags, c.interfaceVersion, t) && (own || !AnySimplyAssignable(tags)) {
        FieldsMetInside(c, heap, fields, v.items, s, within);
      }
    case Array(e, _) => ItemsMetInside(c, heap, e, v.items, s, within);
    case Vector(e) => ItemsMetInside(c, heap, e, v.items, s.(at := s.at + SizeOctets(c.flags)), within);
    case String(u) => ItemsMetInside(c, heap, u, v.items + [Num(0)], s.(at := s.at + SizeOctets(c.flags)), within);
    case Map(e) => EachMetInside(c, heap, e, v.items, s.(at := s.at + SizeOctets(c.flags)), within);
  }

  lemma {:induction false} FieldsMetInside(c: Context, heap: Heap, ts: seq<Type>, vs: seq<Value>, s: Tally,
                                           within: set<nat>)
    requires FieldsWritable(c, heap, ts, vs) && Closed(heap, within) && Inside(Items(vs), within)
    ensures NewInside(s, MeasureFields(c, heap, ts, vs, s), within)
    decreases Unmet(heap, s), ts, 0
  {
    if ts != [] {
      MetIsInside(c, heap, ts[0], vs[0], s, within);
      FieldsMetInside(c, heap, ts[1..], vs[1..], Measure(c, heap, ts[0], vs[0], s), within);
    }
  }

  lemma {:induction false} ItemsMetInside(c: Context, heap: Heap, e: Type, vs: seq<Value>, s: Tally, within: set<nat>)
    requires Writable(c, heap, e) && ElemsTyped(e, vs, heap) && Closed(heap, within) && Inside(Items(vs), within)
    ensures NewInside(s, MeasureItems(c, heap, e, vs, s), within)
    decreases Unmet(heap, s), e, |vs| + 2
  {
    if !(e.Struct? && e.tags.empty) && !ElemsCopiedRaw(c.flags, c.interfaceVersion, e) {
      EachMetInside(c, heap, e, vs, s, within);
    }
  }

  lemma {:induction false} EachMetInside(c: Context, heap: Heap, e: Type, vs: seq<Value>, s: Tally, within: set<nat>)
    requires Writable(c, heap, e) && ElemsTyped(e, vs, heap) && Closed(heap, within) && Inside(Items(vs), within)
    ensures NewInside(s, MeasureEach(c, heap, e, vs, s), within)
    decreases Unmet(heap, s), e, |vs| + 1
  {
    if vs != [] {
      MetIsInside(c, heap, e, vs[0], s, within);
      EachMetInside(c, heap, e, vs[1..], Measure(c, heap, e, vs[0], s), within);
    }
  }

  /** Only objects that the value reaches are met. */
  lemma MetIsReached(c: Context, heap: Heap, t: Type, v: Value, s: Tally)
    requires Writable(c, heap, t) && HasType(t, v, heap) && s.met == map[]
    ensures Measure(c, heap, t, v, s).met.Keys <= Reach(heap, v)
  {
    forall a | a in heap ensures Inside(heap[a].value, heap.Keys) {
      TypedIsInside(c.types[heap[a].name], heap[a].value, heap);
    }
    TypedIsInside(t, v, heap);
    MetIsInside(c, heap, t, v, s, heap.Keys);
    forall a | a in Measure(c, heap, t, v, s).met ensures a in Reach(heap, v) {
      forall within: set<nat> | Closed(heap, within) && Inside(v, within) ensures a in within {
        MetIsInside(c, heap, t, v, s, within);
      }
    }
  }

  // ---------------------------------------------------------------- whole bodies

  /** Every object that the value reaches can be written. */
  ghost predicate ReachAdmitted(c: Context, heap: Heap, v: Value) {
    forall a | a in Reach(heap, v) ::
      a in heap && heap[a].name in c.types && Admits(c, c.types[heap[a].name], heap[a].value)
  }

  /** The measure of a body behind `before`. */
  ghost function BodyExtent(c: Context, heap: Heap, t: Type, v: Value, before: nat): Tally
    requires CanSend(c, heap, t, v)
  {
    Measure(c, heap, t, v, Tally(before, map[], 0))
  }

  /**
    * A body is written exactly when nothing in the value or in an object that it reaches is refused, and the offsets
    * referred to fit into the octets of a size. It has then the length measured, and its objects begin there.
    */
  lemma BodySucceedsIff(c: Context, heap: Heap, t: Type, v: Value, before: seq<Byte>)
    requires CanSend(c, heap, t, v)
    ensures var got, z := Body(c, heap, t, v, before), BodyExtent(c, heap, t, v, |before|);
            && (got.Ok? <==> Admits(c, t, v) && ReachAdmitted(c, heap, v) && z.farthest < SizeLimit(c.flags))
            && (got.Ok? ==>
                  && |got.value.bin| == z.at && z.met.Keys == Reach(heap, v)
                  && forall a | a in z.met :: Node(a) in got.value.seen && got.value.seen[Node(a)] == z.met[a])
  {
    var o, s := Begun(before), Tally(|before|, map[], 0);
    WriteMatches(c, heap, t, v, Null, o, s);
    MetIsReached(c, heap, t, v, s);
    if Body(c, heap, t, v, before).Ok? {
      WriteRecordsReach(c, heap, t, v, before);
    }
  }

  // ---------------------------------------------------------------- the induction

  lemma {:induction false} WriteMatches(c: Context, heap: Heap, t: Type, v: Value, lead: Ref, o: Out, s: Tally)
    requires Writable(c, heap, t) && HasType(t, v, heap) && AtLead(lead, o) && Tallies(o, s) && OffsetsFit(c, s)
    ensures Matches(c, heap, Write(c, heap, t, v, lead, o), Admits(c, t, v), s, Measure(c, heap, t, v, s))
    decreases Unseen(heap, o), t, 2
  {
    match t
    case Prim(sc) => ScalarOctets(c, heap, sc, v, lead, o);
    case Pointer(name) => PointerMatches(c, heap, name, v, lead, o, s);
    case Struct(_, _, _, _, _) => StructMatches(c, heap, t, v, lead, o, s);
    case Array(e, _) => ArrayMatches(c, heap, e, v.items, lead, o, s);
    case Vector(_) => VectorMatches(c, heap, t, v, lead, o, s);
    case String(_) => StringMatches(c, heap, t, v, lead, o, s);
    case Map(_) => MapMatches(c, heap, t, v, lead, o, s);
  }

  lemma {:induction false} VectorMatches(c: Context, heap: Heap, t: Type, v: Value, lead: Ref, o: Out, s: Tally)
    requires Writable(c, heap, t) && HasType(t, v, heap) && AtLead(lead, o) && Tallies(o, s) && OffsetsFit(c, s)
    requires t.Vector?
    ensures Matches(c, heap, Write(c, heap, t, v, lead, o), Admits(c, t, v), s, Measure(c, heap, t, v, s))
    decreases Unseen(heap, o), t, 1
  {
    ContainerTravels(c, heap, t, v, lead, o);
    SizeExtent(c, |v.items|, o, s);
    if |v.items| < SizeLimit(c.flags) {
      var sized, tallied := WriteSize(c, |v.items|, o).value, s.(at := s.at + SizeOctets(c.flags));
      ArrayMatches(c, heap, t.elem, v.items, Null, sized, tallied);
    }
  }

  lemma {:induction false} StringMatches(c: Context, heap: Heap, t: Type, v: Value, lead: Ref, o: Out, s: Tally)
    requires Writable(c, heap, t) && HasType(t, v, heap) && AtLead(lead, o) && Tallies(o, s) && OffsetsFit(c, s)
    requires t.String?
    ensures Matches(c, heap, Write(c, heap, t, v, lead, o), Admits(c, t, v), s, Measure(c, heap, t, v, s))
    decreases Unseen(heap, o), t, 1
  {
    ContainerTravels(c, heap, t, v, lead, o);
    SizeExtent(c, |v.items|, o, s);
    if |v.items| < SizeLimit(c.flags) {
      var sized, tallied := WriteSize(c, |v.items|, o).value, s.(at := s.at + SizeOctets(c.flags));
      ArrayMatches(c, heap, t.unit, v.items + [Num(0)], Null, sized, tallied);
      PrimsAdmitted(c, t.unit, v.items + [Num(0)]);
    }
  }

  lemma {:induction false} MapMatches(c: Context, heap: Heap, t: Type, v: Value, lead: Ref, o: Out, s: Tally)
    requires Writable(c, heap, t) && HasType(t, v, heap) && AtLead(lead, o) && Tallies(o, s) && OffsetsFit(c, s)
    requires t.Map?
    ensures Matches(c, heap, Write(c, heap, t, v, lead, o), Admits(c, t, v), s, Measure(c, heap, t, v, s))
    decreases Unseen(heap, o), t, 1
  {
    ContainerTravels(c, heap, t, v, lead, o);
    SizeExtent(c, |v.items|, o, s);
    if |v.items| < SizeLimit(c.flags) {
      var sized, tallied := WriteSize(c, |v.items|, o).value, s.(at := s.at + SizeOctets(c.flags));
      EachMatches(c, heap, t.entry, v.items, false, Null, sized, tallied);
    }
  }

  lemma {:induction false} StructMatches(c: Context, heap: Heap, t: Type, v: Value, lead: Ref, o: Out, s: Tally)
    requires Writable(c, heap, t) && HasType(t, v, heap) && AtLead(lead, o) && Tallies(o, s) && OffsetsFit(c, s)
    requires t.Struct?
    ensures Matches(c, heap, Write(c, heap, t, v, lead, o), Admits(c, t, v), s, Measure(c, heap, t, v, s))
    decreases Unseen(heap, o), t, 1
  {
    StructTravels(c, heap, t, v, lead, o);
    OctetsMatch(c, heap, o, s, []);
    assert Append(o, []) == o;
    if CopiesRaw(c.flags, c.interfaceVersion, t) {
      OctetsMatch(c, heap, o, s, RawBytes(c.bigEndianHost, t, v));
    } else if t.hasFunctions || !AnySimplyAssignable(t.tags) {
      FieldsMatch(c, heap, t.fields, v.items, lead, o, s);
    }
  }

  lemma {:induction false} PrimsAdmitted(c: Context, u: Type, vs: seq<Value>)
    requires u.Prim?
    ensures AdmitsEach(c, u, vs)
    decreases vs
  {
    if vs != [] {
      PrimsAdmitted(c, u, vs[1..]);
    }
  }

  lemma {:induction false} PointerMatches(c: Context, heap: Heap, name: nat, v: Value, lead: Ref, o: Out, s: Tally)
    requires Writable(c, heap, Pointer(name)) && HasType(Pointer(name), v, heap) && AtLead(lead, o)
    requires Tallies(o, s) && OffsetsFit(c, s)
    ensures var t := Pointer(name);
            Matches(c, heap, Write(c, heap, t, v, lead, o), Admits(c, t, v), s, Measure(c, heap, t, v, s))
    decreases Unseen(heap, o), Pointer(name), 1
  {
    if c.flags.allowUnmanagedPointers {
      if v.ref.Null? {
        SizeExtent(c, 0, o, s);
      } else if v.ref in o.seen {
        SizeExtent(c, o.seen[v.ref], o, s);
      } else {
        SizeExtent(c, 1, o, s);
        NewPointeeMatches(c, heap, name, v, lead, o, s);
      }
    }
  }

  lemma {:induction false} NewPointeeMatches(c: Context, heap: Heap, name: nat, v: Value, lead: Ref, o: Out, s: Tally)
    requires Writable(c, heap, Pointer(name)) && HasType(Pointer(name), v, heap) && AtLead(lead, o)
    requires Tallies(o, s) && OffsetsFit(c, s) && WriteSize(c, 1, o).Ok?
    requires c.flags.allowUnmanagedPointers && v.ref.Node? && v.ref !in o.seen
    requires Tallies(WriteSize(c, 1, o).value, s.(at := s.at + SizeOctets(c.flags)))
    ensures var t := Pointer(name);
            Matches(c, heap, Write(c, heap, t, v, lead, o), true, s, Measure(c, heap, t, v, s))
    decreases Unseen(heap, o), Pointer(name), 0
  {
    var a, entered, at := v.ref.id, Entered(c, v.ref.id, o), s.at + SizeOctets(c.flags);
    var tallied := s.(at := at, met := s.met[a := at]);
    WriteNewUnfolds(c, heap, name, v, lead, o);
    assert a in Unseen(heap, o) && a !in Unseen(heap, entered);
    WriteMatches(c, heap, c.types[name], heap[a].value, v.ref, entered, tallied);
    var z := Measure(c, heap, c.types[name], heap[a].value, tallied);
    assert MetAdmitted(c, heap, s, z) <==> Admits(c, c.types[name], heap[a].value) && MetAdmitted(c, heap, tallied, z);
  }

  lemma {:induction false} FieldsMatch(c: Context, heap: Heap, ts: seq<Type>, vs: seq<Value>, lead: Ref, o: Out,
                                       s: Tally)
    requires FieldsWritable(c, heap, ts, vs) && AtLead(lead, o) && Tallies(o, s) && OffsetsFit(c, s)
    ensures Matches(c, heap, WriteFields(c, heap, ts, vs, lead, o), AdmitsFields(c, ts, vs), s,
                    MeasureFields(c, heap, ts, vs, s))
    decreases Unseen(heap, o), ts, 0
  {
    if ts != [] {
      var head, m := Write(c, heap, ts[0], vs[0], lead, o), Measure(c, heap, ts[0], vs[0], s);
      var got, z := WriteFields(c, heap, ts, vs, lead, o), MeasureFields(c, heap, ts, vs, s);
      WriteFieldsUnfolds(c, heap, ts, vs, lead, o);
      WriteMatches(c, heap, ts[0], vs[0], lead, o, s);
      if head.Ok? {
        FieldsMatch(c, heap, ts[1..], vs[1..], Null, head.value, m);
      }
      TwoMatch(c, heap, head, got, Admits(c, ts[0], vs[0]), AdmitsFields(c, ts[1..], vs[1..]), s, m, z);
    }
  }

  lemma {:induction false} ArrayMatches(c: Context, heap: Heap, e: Type, vs: seq<Value>, lead: Ref, o: Out, s: Tally)
    requires Writable(c, heap, e) && ElemsTyped(e, vs, heap) && AtLead(lead, o) && Tallies(o, s) && OffsetsFit(c, s)
    ensures Matches(c, heap, WriteArray(c, heap, e, vs, lead, o), AdmitsItems(c, e, vs), s,
                    MeasureItems(c, heap, e, vs, s))
    decreases Unseen(heap, o), e, |vs| + 4
  {
    ArrayTravels(c, heap, e, vs, lead, o);
    if e.Struct? && e.tags.empty {
      OctetsMatch(c, heap, o, s, []);
      assert Append(o, []) == o;
    } else if ElemsCopiedRaw(c.flags, c.interfaceVersion, e) {
      var tag := if e.Prim? && c.flags.sizeOfIntegersMayBeNotEqual && !e.scalar.fixed then [e.scalar.width] else [];
      OctetsMatch(c, heap, o, s, tag + RawElems(c.bigEndianHost, e, vs));
    } else {
      EachMatches(c, heap, e, vs, c.flags.checkRecursivePointers, lead, o, s);
    }
  }

  ghost predicate EachMatch(c: Context, heap: Heap, e: Type, vs: seq<Value>, register: bool, lead: Ref, o: Out,
                            s: Tally) {
    && Writable(c, heap, e) && ElemsTyped(e, vs, heap) && AtLead(lead, o)
    && Matches(c, heap, WriteElems(c, heap, e, vs, register, lead, o), AdmitsEach(c, e, vs), s,
               MeasureEach(c, heap, e, vs, s))
  }

  lemma {:induction false} EachMatches(c: Context, heap: Heap, e: Type, vs: seq<Value>, register: bool, lead: Ref,
                                       o: Out, s: Tally)
    requires Writable(c, heap, e) && ElemsTyped(e, vs, heap) && AtLead(lead, o) && Tallies(o, s) && OffsetsFit(c, s)
    ensures EachMatch(c, heap, e, vs, register, lead, o, s)
    decreases Unseen(heap, o), e, |vs| + 3
  {
    if vs == [] {
      NoneMatches(c, heap, e, register, lead, o, s);
    } else {
      var noted := NotedTally(heap, o, register, lead, s);
      var head, m := Write(c, heap, e, vs[0], lead, noted), Measure(c, heap, e, vs[0], s);
      WriteMatches(c, heap, e, vs[0], lead, noted, s);
      if head.Ok? {
        EachMatches(c, heap, e, vs[1..], register, Null, head.value, m);
      }
      EachJoins(c, heap, e, vs, register, lead, o, s, noted, head, m);
    }
  }

  lemma NoneMatches(c: Context, heap: Heap, e: Type, register: bool, lead: Ref, o: Out, s: Tally)
    requires Writable(c, heap, e) && AtLead(lead, o) && Tallies(o, s) && OffsetsFit(c, s)
    ensures EachMatch(c, heap, e, [], register, lead, o, s)
  {
    OctetsMatch(c, heap, o, s, []);
    assert Append(o, []) == o;
    assert WriteElems(c, heap, e, [], register, lead, o) == Ok(o);
    assert MeasureEach(c, heap, e, [], s) == s;
  }


  lemma EachJoins(c: Context, heap: Heap, e: Type, vs: seq<Value>, register: bool, lead: Ref, o: Out, s: Tally,
                  noted: Out, head: Result<Out>, m: Tally)
    requires Writable(c, heap, e) && ElemsTyped(e, vs, heap) && AtLead(lead, o) && vs != []
    requires noted == Noted(o, register, lead) && AtLead(lead, noted) && HasType(e, vs[0], heap)
    requires head == Write(c, heap, e, vs[0], lead, noted) && m == Measure(c, heap, e, vs[0], s)
    requires Matches(c, heap, head, Admits(c, e, vs[0]), s, m)
    requires head.Ok? ==> EachMatch(c, heap, e, vs[1..], register, Null, head.value, m)
    ensures EachMatch(c, heap, e, vs, register, lead, o, s)
  {
    WriteElemsUnfolds(c, heap, e, vs, register, lead, o);
    TwoMatch(c, heap, head, WriteElems(c, heap, e, vs, register, lead, o), Admits(c, e, vs[0]),
             AdmitsEach(c, e, vs[1..]), s, m, MeasureEach(c, heap, e, vs, s));
  }

  /** Registering the address of an element meets no object. */
  lemma NotedTally(heap: Heap, o: Out, register: bool, lead: Ref, s: Tally) returns (noted: Out)
    requires Tallies(o, s) && AtLead(lead, o)
    ensures noted == Noted(o, register, lead) && Tallies(noted, s) && Unseen(heap, noted) == Unseen(heap, o)
  {
    noted := Noted(o, register, lead);
  }
}
