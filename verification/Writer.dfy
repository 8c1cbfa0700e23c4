/** The specification of the serializing half of BodyProcessor, as a function on the output state. */
module Writer {
  import opened Status
  import opened Bytes
  import opened Types
  import opened Layout

  /**
    * The bytes written so far, and the pointers map: where each address was first written. Two more fields keep
    * book on what a reader will find: `lost` are the objects at whose offset another address has been
    * registered since, and `misled` tells whether a pointer to a lost object has been written.
    */
  datatype Out = Out(bin: seq<Byte>, seen: map<Ref, nat>, lost: set<Ref>, misled: bool)

  /** An output that only holds `bin` yet. */
  function Begun(bin: seq<Byte>): Out {
    Out(bin, map[], {}, false)
  }

  function Append(o: Out, s: seq<Byte>): (r: Out)
    ensures r.bin == o.bin + s && r == o.(bin := r.bin)
  {
    o.(bin := o.bin + s)
  }

  ghost predicate Extends(o: Out, p: Out) {
    o.bin <= p.bin && forall a :: Node(a) in o.seen ==> Node(a) in p.seen && p.seen[Node(a)] == o.seen[Node(a)]
  }

  /** No two objects share an offset, and only recorded ones are lost. */
  ghost predicate DistinctOffsets(o: Out) {
    && o.lost <= o.seen.Keys
    && forall a, b | Node(a) in o.seen && Node(b) in o.seen && o.seen[Node(a)] == o.seen[Node(b)] :: a == b
  }

  /** The objects whose addresses are not in the pointers map yet. */
  ghost function Unseen(heap: Heap, o: Out): set<nat> {
    set a | a in heap && Node(a) !in o.seen
  }

  function SizeWidth(f: Flags): nat {
    if f.bitness32 then 4 else 8
  }

  /** serializeSizeT: 4 or 8 octets, and an error for a value that does not fit. */
  function WriteSize(c: Context, n: nat, o: Out): Result<Out> {
    var w := SizeWidth(c.flags);
    if n < Pow256(w)
    then Ok(Append(o, PrimitiveBytes(c.bigEndianHost, c.flags.bigEndianFormat, n, w)))
    else Err(ErrorValueOverflow)
  }

  function SizeTag(c: Context, s: Scalar): (t: seq<Byte>)
    requires ScalarOk(s)
  {
    if Tagged(c, s) then [s.width] else []
  }

  function WritePrim(c: Context, s: Scalar, n: int, o: Out): Out
    requires ScalarOk(s) && InRange(s, n)
  {
    Append(o, SizeTag(c, s) + PrimitiveBytes(c.bigEndianHost, c.flags.bigEndianFormat, Pattern(s, n), s.width))
  }

  /** Where there are pointers, they travel with the check of recursive pointers. */
  ghost predicate Writable(c: Context, heap: Heap, t: Type) {
    ContextOk(c) && (PointersChecked(c) || NoPointers(t)) && HeapOk(c.types, heap) && TypeOk(t) && Known(c.types, t)
  }

  ghost predicate ElemsTyped(e: Type, vs: seq<Value>, heap: Heap) {
    forall i | 0 <= i < |vs| :: HasType(e, vs[i], heap)
  }

  ghost predicate FieldsWritable(c: Context, heap: Heap, ts: seq<Type>, vs: seq<Value>) {
    |ts| == |vs| && forall i | 0 <= i < |ts| :: Writable(c, heap, ts[i]) && HasType(ts[i], vs[i], heap)
  }

  /** If an object begins where the output ends, it has been recorded there. */
  ghost predicate AtLead(lead: Ref, o: Out) {
    && !lead.Element?
    && (lead.Node? ==> lead in o.seen && o.seen[lead] == |o.bin|)
  }

  /**
    * One value; the pointees it leads to for the first time are written where the pointer is. `lead` is the
    * object whose address the value shares, being its first part.
    */
  function Write(c: Context, heap: Heap, t: Type, v: Value, lead: Ref, o: Out): (r: Result<Out>)
    requires Writable(c, heap, t) && HasType(t, v, heap) && AtLead(lead, o)
    ensures r.Ok? ==> Extends(o, r.value)
    decreases Unseen(heap, o), t, 0
  {
    match t
    case Prim(s) => Ok(WritePrim(c, s, v.n, o))
    case Pointer(name) =>
      if !c.flags.allowUnmanagedPointers then
        Err(ErrorNotSupportedSerializationSettingsForStruct)
      else if v.ref.Null? then
        WriteSize(c, 0, o)
      else if v.ref in o.seen then
        WriteBack(c, v.ref, o)
      else
        var marked :- WriteSize(c, 1, o);
        var entered := marked.(seen := marked.seen[v.ref := |marked.bin|]);
        assert v.ref.id in Unseen(heap, o) && v.ref.id !in Unseen(heap, entered);
        Write(c, heap, c.types[name], heap[v.ref.id].value, v.ref, entered)
    case Struct(tags, _, own, fields, _) =>
      if RawBlock(c, t) then
        PlainIgnoresHeap(t, v, heap);
        Ok(Append(o, RawBytes(c.bigEndianHost, t, v)))
      else if Skipped(c, t) then
        Ok(o)
      else if AnySimplyAssignable(tags) && !own then
        Err(ErrorNotSupportedSerializationSettingsForStruct)
      else
        WriteFields(c, heap, fields, v.items, lead, o)
    case Array(e, _) => WriteArray(c, heap, e, v.items, lead, o)
    case Vector(e) =>
      var sized :- WriteSize(c, |v.items|, o);
      WriteArray(c, heap, e, v.items, Null, sized)
    case String(u) =>
      var sized :- WriteSize(c, |v.items|, o);
      WriteArray(c, heap, u, v.items + [Num(0)], Null, sized)
    case Map(e) =>
      var sized :- WriteSize(c, |v.items|, o);
      WriteElems(c, heap, e, v.items, false, Null, sized)
  }

  /** A reference to an object recorded earlier. */
  function WriteBack(c: Context, ref: Ref, o: Out): (r: Result<Out>)
    requires ref in o.seen
    ensures r.Ok? ==> Extends(o, r.value)
  {
    var p :- WriteSize(c, o.seen[ref], o);
    Ok(if ref in o.lost then p.(misled := true) else p)
  }

  function WriteFields(c: Context, heap: Heap, ts: seq<Type>, vs: seq<Value>, lead: Ref, o: Out): (r: Result<Out>)
    requires FieldsWritable(c, heap, ts, vs) && AtLead(lead, o)
    ensures r.Ok? ==> Extends(o, r.value)
    decreases Unseen(heap, o), ts, 0
  {
    if ts == [] then Ok(o) else
      var next :- Write(c, heap, ts[0], vs[0], lead, o);
      WriteFields(c, heap, ts[1..], vs[1..], Null, next)
  }

  /** A counted array: nothing, one raw block, or element by element. */
  function WriteArray(c: Context, heap: Heap, e: Type, vs: seq<Value>, lead: Ref, o: Out): (r: Result<Out>)
    requires Writable(c, heap, e) && ElemsTyped(e, vs, heap) && AtLead(lead, o)
    ensures r.Ok? ==> Extends(o, r.value)
    decreases Unseen(heap, o), e, |vs| + 2
  {
    if e.Struct? && e.tags.empty then
      Ok(o)
    else if RawBlock(c, e) then
      RawElemsTyped(e, vs, heap);
      Ok(Append(o, (if e.Prim? then SizeTag(c, e.scalar) else []) + RawElems(c.bigEndianHost, e, vs)))
    else
      WriteElems(c, heap, e, vs, c.flags.checkRecursivePointers, lead, o)
  }

  /**
    * The address of an array element enters the pointers map before the element is written. Objects recorded
    * at this very offset are lost, unless the element is the first part of one of them.
    */
  function Noted(o: Out, register: bool, lead: Ref): Out {
    if !register then o
    else if lead.Node? then o.(seen := o.seen[lead := |o.bin|], lost := o.lost - {lead})
    else
      o.(seen := o.seen[Element(|o.bin|) := |o.bin|],
         lost := o.lost + set ref | ref in o.seen && ref.Node? && o.seen[ref] == |o.bin|)
  }

  /** Element by element; with `register` the address of each enters the pointers map first. */
  function WriteElems(c: Context, heap: Heap, e: Type, vs: seq<Value>, register: bool, lead: Ref,
                      o: Out): (r: Result<Out>)
    requires Writable(c, heap, e) && ElemsTyped(e, vs, heap) && AtLead(lead, o)
    ensures r.Ok? ==> Extends(o, r.value)
    decreases Unseen(heap, o), e, |vs| + 1
  {
    if vs == [] then Ok(o) else
      var noted := Noted(o, register, lead);
      assert Unseen(heap, noted) == Unseen(heap, o);
      var next :- Write(c, heap, e, vs[0], lead, noted);
      WriteElems(c, heap, e, vs[1..], register, Null, next)
  }

  lemma RawElemsTyped(e: Type, vs: seq<Value>, heap: Heap)
    requires Plain(e) && TypeOk(e) && ElemsTyped(e, vs, heap)
    ensures PlainElems(e, vs)
  {
    forall i | 0 <= i < |vs| ensures HasType(e, vs[i], map[]) {
      PlainIgnoresHeap(e, vs[i], heap);
    }
  }
}
