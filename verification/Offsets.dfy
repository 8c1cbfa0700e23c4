/** The offsets the writer records for pointees, and a sufficient condition for none of them to be lost. */
module Offsets {
  import opened Bytes
  import opened Types
  import opened Layout
  import opened Writer
  import opened Outcomes

  /** Recorded offsets are no markers, lie inside the output, and no two objects share one. */
  ghost predicate Recorded(o: Out) {
    DistinctOffsets(o) && forall a | Node(a) in o.seen :: 1 < o.seen[Node(a)] <= |o.bin|
  }

  /** What a write does to the record: older entries stay, newer ones come strictly after all that was there. */
  ghost predicate Keeps(o: Out, p: Out) {
    && Extends(o, p)
    && Recorded(p)
    && forall a | Node(a) in p.seen && Node(a) !in o.seen :: |o.bin| < p.seen[Node(a)]
  }

  lemma KeepsTransitive(o: Out, p: Out, q: Out)
    requires Keeps(o, p) && Keeps(p, q)
    ensures Keeps(o, q)
  {
  }

  lemma KeepsAppend(o: Out, s: seq<Byte>)
    requires Recorded(o)
    ensures Keeps(o, Append(o, s))
  {
  }

  lemma SizeKeeps(c: Context, n: nat, o: Out)
    requires Recorded(o) && WriteSize(c, n, o).Ok?
    ensures Keeps(o, WriteSize(c, n, o).value) && Behind(WriteSize(c, n, o).value)
    ensures |WriteSize(c, n, o).value.bin| >= |o.bin| + 4
  {
  }

  /** A marker of four octets at least stands in front of every object recorded. */
  lemma EnterKeeps(o: Out, marked: Out, a: nat)
    requires Keeps(o, marked) && marked.seen == o.seen && |o.bin| + 4 <= |marked.bin|
    requires Node(a) !in o.seen && Behind(marked)
    ensures Keeps(o, marked.(seen := marked.seen[Node(a) := |marked.bin|]))
  {
  }

  lemma NotedKeeps(o: Out, register: bool, lead: Ref)
    requires Recorded(o) && AtLead(lead, o)
    ensures Keeps(o, Noted(o, register, lead)) && |Noted(o, register, lead).bin| == |o.bin|
  {
  }

  // ---------------------------------------------------------------- every write keeps the record

  lemma {:induction false} WriteKeeps(c: Context, heap: Heap, t: Type, v: Value, lead: Ref, o: Out)
    requires Writable(c, heap, t) && HasType(t, v, heap) && AtLead(lead, o) && Write(c, heap, t, v, lead, o).Ok?
    requires Recorded(o)
    ensures Keeps(o, Write(c, heap, t, v, lead, o).value)
    decreases Unseen(heap, o), t, 0
  {
    match t
    case Prim(_) =>
    case Pointer(name) => PointerKeeps(c, heap, name, v, lead, o);
    case Struct(_, _, _, fields, _) =>
      if RawBlock(c, t) {
        PlainIgnoresHeap(t, v, heap);
        KeepsAppend(o, RawBytes(c.bigEndianHost, t, v));
      } else if !Skipped(c, t) {
        WriteFieldsKeep(c, heap, fields, v.items, lead, o);
      }
    case Array(e, _) => WriteArrayKeeps(c, heap, e, v.items, lead, o);
    case Vector(e) =>
      SizeKeeps(c, |v.items|, o);
      WriteArrayKeeps(c, heap, e, v.items, Null, WriteSize(c, |v.items|, o).value);
    case String(u) =>
      SizeKeeps(c, |v.items|, o);
      WriteArrayKeeps(c, heap, u, v.items + [Num(0)], Null, WriteSize(c, |v.items|, o).value);
    case Map(e) =>
      SizeKeeps(c, |v.items|, o);
      WriteElemsKeep(c, heap, e, v.items, false, Null, WriteSize(c, |v.items|, o).value);
  }

  lemma {:induction false} PointerKeeps(c: Context, heap: Heap, name: nat, v: Value, lead: Ref, o: Out)
    requires Writable(c, heap, Pointer(name)) && HasType(Pointer(name), v, heap) && AtLead(lead, o)
    requires Write(c, heap, Pointer(name), v, lead, o).Ok? && Recorded(o)
    ensures Keeps(o, Write(c, heap, Pointer(name), v, lead, o).value)
    decreases Unseen(heap, o), Pointer(name), -1
  {
    if v.ref.Node? && v.ref !in o.seen {
      var marked := WriteSize(c, 1, o).value;
      SizeKeeps(c, 1, o);
      EnterKeeps(o, marked, v.ref.id);
      var entered := marked.(seen := marked.seen[v.ref := |marked.bin|]);
      assert v.ref.id in Unseen(heap, o) && v.ref.id !in Unseen(heap, entered);
      WriteKeeps(c, heap, c.types[name], heap[v.ref.id].value, v.ref, entered);
      KeepsTransitive(o, entered, Write(c, heap, Pointer(name), v, lead, o).value);
    } else {
      SizeKeeps(c, if v.ref.Null? then 0 else o.seen[v.ref], o);
    }
  }

  lemma {:induction false} WriteFieldsKeep(c: Context, heap: Heap, ts: seq<Type>, vs: seq<Value>, lead: Ref, o: Out)
    requires FieldsWritable(c, heap, ts, vs) && AtLead(lead, o) && WriteFields(c, heap, ts, vs, lead, o).Ok?
    requires Recorded(o)
    ensures Keeps(o, WriteFields(c, heap, ts, vs, lead, o).value)
    decreases Unseen(heap, o), ts, 0
  {
    if ts != [] {
      var next := Write(c, heap, ts[0], vs[0], lead, o).value;
      WriteKeeps(c, heap, ts[0], vs[0], lead, o);
      WriteFieldsKeep(c, heap, ts[1..], vs[1..], Null, next);
      KeepsTransitive(o, next, WriteFields(c, heap, ts, vs, lead, o).value);
    }
  }

  lemma {:induction false} WriteArrayKeeps(c: Context, heap: Heap, e: Type, vs: seq<Value>, lead: Ref, o: Out)
    requires Writable(c, heap, e) && ElemsTyped(e, vs, heap) && AtLead(lead, o)
    requires WriteArray(c, heap, e, vs, lead, o).Ok?
    requires Recorded(o)
    ensures Keeps(o, WriteArray(c, heap, e, vs, lead, o).value)
    decreases Unseen(heap, o), e, |vs| + 2
  {
    if e.Struct? && e.tags.empty {
    } else if RawBlock(c, e) {
      RawElemsTyped(e, vs, heap);
      KeepsAppend(o, (if e.Prim? then SizeTag(c, e.scalar) else []) + RawElems(c.bigEndianHost, e, vs));
    } else {
      WriteElemsKeep(c, heap, e, vs, c.flags.checkRecursivePointers, lead, o);
    }
  }

  lemma {:induction false} WriteElemsKeep(c: Context, heap: Heap, e: Type, vs: seq<Value>, register: bool, lead: Ref,
                                          o: Out)
    requires Writable(c, heap, e) && ElemsTyped(e, vs, heap) && AtLead(lead, o)
    requires WriteElems(c, heap, e, vs, register, lead, o).Ok? && Recorded(o)
    ensures Keeps(o, WriteElems(c, heap, e, vs, register, lead, o).value)
    decreases Unseen(heap, o), e, |vs| + 1
  {
    if vs != [] {
      var noted := Noted(o, register, lead);
      NotedKeeps(o, register, lead);
      assert Unseen(heap, noted) == Unseen(heap, o);
      var next := Write(c, heap, e, vs[0], lead, noted).value;
      WriteKeeps(c, heap, e, vs[0], lead, noted);
      WriteElemsKeep(c, heap, e, vs[1..], register, Null, next);
      KeepsTransitive(o, noted, next);
      KeepsTransitive(o, next, WriteElems(c, heap, e, vs, register, lead, o).value);
    }
  }

  /** A back reference is no marker, and lies below the end of the output that it makes. */
  lemma BackReferenceIsBelow(c: Context, heap: Heap, name: nat, v: Value, lead: Ref, o: Out)
    requires Writable(c, heap, Pointer(name)) && HasType(Pointer(name), v, heap) && AtLead(lead, o) && Recorded(o)
    requires Write(c, heap, Pointer(name), v, lead, o).Ok? && v.ref.Node? && v.ref in o.seen
    ensures var p := Write(c, heap, Pointer(name), v, lead, o).value;
            && 1 < o.seen[v.ref] <= |o.bin| < |p.bin|
            && p.bin == o.bin + PrimitiveBytes(c.bigEndianHost, c.flags.bigEndianFormat, o.seen[v.ref],
                                               SizeWidth(c.flags))
  {
  }

  // ---------------------------------------------------------------- types whose objects are never lost

  /** A value of such a type writes nothing. */
  predicate Blank(c: Context, t: Type) {
    match t
    case Struct(_, _, _, fields, _) => !RawBlock(c, t) && (Skipped(c, t) || BlankFields(c, fields))
    case Array(e, _) => e.Struct? && e.tags.empty
    case _ => false
  }

  predicate BlankFields(c: Context, ts: seq<Type>) {
    ts == [] || (Blank(c, ts[0]) && BlankFields(c, ts[1..]))
  }

  /**
    * A value of such a type writes an octet before it registers an address other than its own. `first` tells
    * whether it has the address of the object around it.
    */
  predicate Opens(c: Context, t: Type, first: bool) {
    match t
    case Struct(_, _, _, fields, _) => RawBlock(c, t) || (!Skipped(c, t) && OpensFields(c, fields, first))
    case Array(e, _) => !(e.Struct? && e.tags.empty) && (RawBlock(c, e) || (first && Opens(c, e, true)))
    case _ => true
  }

  predicate OpensFields(c: Context, ts: seq<Type>, first: bool) {
    ts != [] && (Opens(c, ts[0], first) || (Blank(c, ts[0]) && OpensFields(c, ts[1..], false)))
  }

  predicate PointeesOpen(c: Context) {
    forall name | name in c.types :: Opens(c, c.types[name], true)
  }

  ghost predicate Unharmed(o: Out) {
    o.lost == {} && !o.misled
  }

  lemma SizeHarmsNothing(c: Context, n: nat, o: Out)
    requires Recorded(o) && Unharmed(o) && WriteSize(c, n, o).Ok?
    ensures var p := WriteSize(c, n, o).value;
            Recorded(p) && Unharmed(p) && Behind(p)
  {
    SizeKeeps(c, n, o);
  }

  lemma BlockHarmsNothing(c: Context, heap: Heap, t: Type, v: Value, lead: Ref, o: Out)
    requires Writable(c, heap, t) && HasType(t, v, heap) && AtLead(lead, o) && t.Struct? && RawBlock(c, t)
    requires Recorded(o) && Unharmed(o)
    ensures var p := Write(c, heap, t, v, lead, o);
            p.Ok? && Unharmed(p.value) && Behind(p.value)
  {
    RawSizePositive(t);
    PlainIgnoresHeap(t, v, heap);
  }

  /** No object is lost by a write that puts an octet between the objects recorded and what it registers. */
  lemma {:induction false} WriteHarmsNothing(c: Context, heap: Heap, t: Type, v: Value, lead: Ref, o: Out)
    requires Writable(c, heap, t) && HasType(t, v, heap) && AtLead(lead, o) && Write(c, heap, t, v, lead, o).Ok?
    requires PointeesOpen(c) && Recorded(o) && Unharmed(o)
    requires Behind(o) || Opens(c, t, lead.Node?) || Blank(c, t)
    ensures var p := Write(c, heap, t, v, lead, o).value;
            Unharmed(p) && (Behind(p) || (Blank(c, t) && p == o))
    decreases Unseen(heap, o), t, 0
  {
    match t
    case Prim(s) => assert |WritePrim(c, s, v.n, o).bin| > |o.bin|;
    case Pointer(name) => PointerHarmsNothing(c, heap, name, v, lead, o);
    case Struct(_, _, _, fields, _) =>
      if RawBlock(c, t) {
        BlockHarmsNothing(c, heap, t, v, lead, o);
      } else if !Skipped(c, t) {
        FieldsHarmNothing(c, heap, fields, v.items, lead, o);
      }
    case Array(e, _) => ArrayHarmsNothing(c, heap, e, v.items, lead, o);
    case Vector(e) =>
      SizeHarmsNothing(c, |v.items|, o);
      ArrayHarmsNothing(c, heap, e, v.items, Null, WriteSize(c, |v.items|, o).value);
    case String(u) =>
      SizeHarmsNothing(c, |v.items|, o);
      ArrayHarmsNothing(c, heap, u, v.items + [Num(0)], Null, WriteSize(c, |v.items|, o).value);
    case Map(e) =>
      SizeHarmsNothing(c, |v.items|, o);
      ElemsHarmNothing(c, heap, e, v.items, false, Null, WriteSize(c, |v.items|, o).value);
  }

  lemma {:induction false} OpensNotBlank(c: Context, t: Type, first: bool)
    requires Opens(c, t, first)
    ensures !Blank(c, t)
    decreases t, 0
  {
    if t.Struct? && !RawBlock(c, t) {
      OpensFieldsNotBlank(c, t.fields, first);
    }
  }

  lemma {:induction false} OpensFieldsNotBlank(c: Context, ts: seq<Type>, first: bool)
    requires OpensFields(c, ts, first)
    ensures !BlankFields(c, ts)
    decreases ts, 0
  {
    if Opens(c, ts[0], first) {
      OpensNotBlank(c, ts[0], first);
    } else {
      OpensFieldsNotBlank(c, ts[1..], false);
    }
  }

  lemma {:induction false} PointerHarmsNothing(c: Context, heap: Heap, name: nat, v: Value, lead: Ref, o: Out)
    requires Writable(c, heap, Pointer(name)) && HasType(Pointer(name), v, heap) && AtLead(lead, o)
    requires Write(c, heap, Pointer(name), v, lead, o).Ok?
    requires PointeesOpen(c) && Recorded(o) && Unharmed(o)
    ensures var p := Write(c, heap, Pointer(name), v, lead, o).value;
            Unharmed(p) && Behind(p)
    decreases Unseen(heap, o), Pointer(name), -1
  {
    if v.ref.Node? && v.ref !in o.seen {
      var marked := WriteSize(c, 1, o).value;
      SizeKeeps(c, 1, o);
      EnterKeeps(o, marked, v.ref.id);
      var entered := marked.(seen := marked.seen[v.ref := |marked.bin|]);
      assert v.ref.id in Unseen(heap, o) && v.ref.id !in Unseen(heap, entered);
      OpensNotBlank(c, c.types[name], true);
      WriteHarmsNothing(c, heap, c.types[name], heap[v.ref.id].value, v.ref, entered);
    } else {
      SizeKeeps(c, if v.ref.Null? then 0 else o.seen[v.ref], o);
    }
  }

  lemma {:induction false} FieldsHarmNothing(c: Context, heap: Heap, ts: seq<Type>, vs: seq<Value>, lead: Ref, o: Out)
    requires FieldsWritable(c, heap, ts, vs) && AtLead(lead, o) && WriteFields(c, heap, ts, vs, lead, o).Ok?
    requires PointeesOpen(c) && Recorded(o) && Unharmed(o)
    requires Behind(o) || OpensFields(c, ts, lead.Node?) || BlankFields(c, ts)
    ensures var p := WriteFields(c, heap, ts, vs, lead, o).value;
            Unharmed(p) && (Behind(p) || (BlankFields(c, ts) && p == o))
    decreases Unseen(heap, o), ts, 0
  {
    if ts != [] {
      var next := Write(c, heap, ts[0], vs[0], lead, o).value;
      WriteKeeps(c, heap, ts[0], vs[0], lead, o);
      WriteHarmsNothing(c, heap, ts[0], vs[0], lead, o);
      if Opens(c, ts[0], lead.Node?) {
        OpensNotBlank(c, ts[0], lead.Node?);
      }
      FieldsHarmNothing(c, heap, ts[1..], vs[1..], Null, next);
    }
  }

  lemma {:induction false} ArrayHarmsNothing(c: Context, heap: Heap, e: Type, vs: seq<Value>, lead: Ref, o: Out)
    requires Writable(c, heap, e) && ElemsTyped(e, vs, heap) && AtLead(lead, o)
    requires WriteArray(c, heap, e, vs, lead, o).Ok?
    requires PointeesOpen(c) && Recorded(o) && Unharmed(o)
    requires || Behind(o)
             || (vs != [] && (RawBlock(c, e) || (lead.Node? && Opens(c, e, true))))
             || (e.Struct? && e.tags.empty)
    ensures var p := WriteArray(c, heap, e, vs, lead, o).value;
            Unharmed(p) && (Behind(p) || (e.Struct? && e.tags.empty && p == o))
    decreases Unseen(heap, o), e, |vs| + 2
  {
    if e.Struct? && e.tags.empty {
    } else if RawBlock(c, e) {
      RawSizePositive(e);
      RawElemsTyped(e, vs, heap);
    } else {
      ElemsHarmNothing(c, heap, e, vs, c.flags.checkRecursivePointers, lead, o);
    }
  }

  lemma NotedHarmsNothing(heap: Heap, o: Out, register: bool, lead: Ref)
    requires Recorded(o) && Unharmed(o) && AtLead(lead, o) && (Behind(o) || lead.Node?)
    ensures var noted := Noted(o, register, lead);
            && Recorded(noted) && Unharmed(noted) && AtLead(lead, noted) && Unseen(heap, noted) == Unseen(heap, o)
            && (Behind(o) ==> Behind(noted))
  {
  }

  lemma {:induction false} ElemHarmsNothing(c: Context, heap: Heap, e: Type, v: Value, lead: Ref, o: Out)
    requires Writable(c, heap, e) && HasType(e, v, heap) && AtLead(lead, o) && Write(c, heap, e, v, lead, o).Ok?
    requires PointeesOpen(c) && Recorded(o) && Unharmed(o) && (Behind(o) || (lead.Node? && Opens(c, e, true)))
    ensures var p := Write(c, heap, e, v, lead, o).value;
            Recorded(p) && Unharmed(p) && Behind(p)
    decreases Unseen(heap, o), e, 1
  {
    WriteKeeps(c, heap, e, v, lead, o);
    WriteHarmsNothing(c, heap, e, v, lead, o);
    if Opens(c, e, true) {
      OpensNotBlank(c, e, true);
    }
  }

  lemma {:induction false} ElemsHarmNothing(c: Context, heap: Heap, e: Type, vs: seq<Value>, register: bool, lead: Ref,
                                            o: Out)
    requires Writable(c, heap, e) && ElemsTyped(e, vs, heap) && AtLead(lead, o)
    requires WriteElems(c, heap, e, vs, register, lead, o).Ok?
    requires PointeesOpen(c) && Recorded(o) && Unharmed(o)
    requires Behind(o) || (vs != [] && lead.Node? && Opens(c, e, true))
    ensures var p := WriteElems(c, heap, e, vs, register, lead, o).value;
            Unharmed(p) && Behind(p)
    decreases Unseen(heap, o), e, |vs| + 1
  {
    if vs != [] {
      var noted := Noted(o, register, lead);
      NotedHarmsNothing(heap, o, register, lead);
      ElemHarmsNothing(c, heap, e, vs[0], lead, noted);
      ElemsHarmNothing(c, heap, e, vs[1..], register, Null, Write(c, heap, e, vs[0], lead, noted).value);
    }
  }
}
