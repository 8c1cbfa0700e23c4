/** One exchange between a writer and a reader: both specifications made total, and unfolded case by case. */
module Exchanges {
  import opened Status
  import opened Types
  import opened Layout
  import opened Twins
  import opened Writer
  import opened Reader
  import opened Steps

  /** The writer, the reader, the written heap, the bytes that arrive, and the first number for new objects. */
  datatype Exchange = Exchange(w: Context, r: Context, heap: Heap, bin: Bin, base: nat)

  /** Two peers and a well-typed heap. */
  ghost predicate Setup(w: Context, r: Context, heap: Heap) {
    Peers(w, r) && HeapOk(w.types, heap)
  }

  ghost predicate Paired(w: Context, r: Context, a: Type, b: Type) {
    TypeOk(a) && TypeOk(b) && Known(w.types, a) && Known(r.types, b) && Twin(w.flags, a, b)
  }

  ghost predicate PairedFields(w: Context, r: Context, ts: seq<Type>, us: seq<Type>) {
    |ts| == |us| && forall i | 0 <= i < |ts| :: Paired(w, r, ts[i], us[i])
  }

  /** The parts of twins are twins. */
  lemma PairedParts(w: Context, r: Context, a: Type, b: Type)
    requires Paired(w, r, a, b)
    ensures a.Array? ==>
              b.Array? && b.size == a.size && Paired(w, r, a.elem, b.elem) && ElemTwins(w.flags, a.elem, b.elem)
    ensures a.Vector? ==> b.Vector? && Paired(w, r, a.elem, b.elem) && ElemTwins(w.flags, a.elem, b.elem)
    ensures a.String? ==> b.String? && a.unit.Prim? && b.unit.Prim?
    ensures a.String? ==> Paired(w, r, a.unit, b.unit) && ElemTwins(w.flags, a.unit, b.unit)
    ensures a.Map? ==> b.Map? && Paired(w, r, a.entry, b.entry)
    ensures a.Struct? ==> b.Struct? && PairedFields(w, r, a.fields, b.fields)
    ensures a.Pointer? ==> b == a && a.target in w.types && a.target in r.types
    ensures a.Prim? ==> b.Prim?
  {
  }

  lemma PairedPointee(w: Context, r: Context, name: nat)
    requires Peers(w, r) && name in w.types
    ensures name in r.types && Paired(w, r, w.types[name], r.types[name])
  {
  }

  lemma SetupReads(x: Exchange, a: Type, b: Type, s: In)
    requires Setup(x.w, x.r, x.heap) && Paired(x.w, x.r, a, b) && Fresh(s) && s.cursor <= |x.bin|
    ensures Readable(x.r, x.bin, b, s)
  {
  }

  // ---------------------------------------------------------------- total forms

  ghost predicate CanWrite(x: Exchange, a: Type, v: Value, lead: Ref, o: Out) {
    Writable(x.w, x.heap, a) && HasType(a, v, x.heap) && AtLead(lead, o)
  }

  ghost predicate CanWriteFields(x: Exchange, ts: seq<Type>, vs: seq<Value>, lead: Ref, o: Out) {
    FieldsWritable(x.w, x.heap, ts, vs) && AtLead(lead, o)
  }

  ghost predicate CanWriteElems(x: Exchange, e: Type, vs: seq<Value>, lead: Ref, o: Out) {
    Writable(x.w, x.heap, e) && ElemsTyped(e, vs, x.heap) && AtLead(lead, o)
  }

  ghost function Wrote(x: Exchange, a: Type, v: Value, lead: Ref, o: Out): (r: Result<Out>)
    ensures r.Ok? ==> Extends(o, r.value)
  {
    if CanWrite(x, a, v, lead, o) then Write(x.w, x.heap, a, v, lead, o) else Err(ErrorInternal)
  }

  ghost function WroteFields(x: Exchange, ts: seq<Type>, vs: seq<Value>, lead: Ref, o: Out): (r: Result<Out>)
    ensures r.Ok? ==> Extends(o, r.value)
  {
    if CanWriteFields(x, ts, vs, lead, o) then WriteFields(x.w, x.heap, ts, vs, lead, o) else Err(ErrorInternal)
  }

  ghost function WroteArray(x: Exchange, e: Type, vs: seq<Value>, lead: Ref, o: Out): (r: Result<Out>)
    ensures r.Ok? ==> Extends(o, r.value)
  {
    if CanWriteElems(x, e, vs, lead, o) then WriteArray(x.w, x.heap, e, vs, lead, o) else Err(ErrorInternal)
  }

  ghost function WroteElems(x: Exchange, e: Type, vs: seq<Value>, register: bool, lead: Ref, o: Out): (r: Result<Out>)
    ensures r.Ok? ==> Extends(o, r.value)
  {
    if CanWriteElems(x, e, vs, lead, o) then WriteElems(x.w, x.heap, e, vs, register, lead, o) else Err(ErrorInternal)
  }

  ghost function Got(x: Exchange, b: Type, at: Place, s: In): (r: Result<(Value, In)>)
    ensures r.Ok? ==> Advances(x.bin, s, r.value.1)
  {
    if Readable(x.r, x.bin, b, s) then Read(x.r, x.bin, b, at, s) else Err(ErrorInternal)
  }

  ghost function GotFields(x: Exchange, us: seq<Type>, whole: Place, k: nat, s: In): (r: Result<(seq<Value>, In)>) {
    if FieldsReadable(x.r, us) && Fresh(s) && s.cursor <= |x.bin| then ReadFields(x.r, x.bin, us, whole, k, s)
    else Err(ErrorInternal)
  }

  ghost function GotArray(x: Exchange, f: Type, n: nat, row: Row, s: In): (r: Result<(seq<Value>, In)>)
    ensures r.Ok? ==> |r.value.0| == n
  {
    if Readable(x.r, x.bin, f, s) then ReadArray(x.r, x.bin, f, n, row, s) else Err(ErrorInternal)
  }

  ghost function GotElems(x: Exchange, f: Type, n: nat, register: bool, row: Row, k: nat,
                          s: In): (r: Result<(seq<Value>, In)>) {
    if Readable(x.r, x.bin, f, s) then ReadElems(x.r, x.bin, f, n, register, row, k, s) else Err(ErrorInternal)
  }

  /** Pointers are allowed, and checked. */
  predicate PointersTravel(c: Context) {
    c.flags.allowUnmanagedPointers && c.flags.checkRecursivePointers
  }

  // ---------------------------------------------------------------- the writer, case by case

  lemma WrotePrim(x: Exchange, a: Type, v: Value, lead: Ref, o: Out)
    requires CanWrite(x, a, v, lead, o) && a.Prim?
    ensures ScalarOk(a.scalar) && v.Num? && InRange(a.scalar, v.n)
    ensures Wrote(x, a, v, lead, o) == Ok(WritePrim(x.w, a.scalar, v.n, o))
  {
  }

  lemma WroteBlock(x: Exchange, a: Type, v: Value, lead: Ref, o: Out)
    requires CanWrite(x, a, v, lead, o) && a.Struct? && RawBlock(x.w, a)
    ensures PlainValue(a, v) && Wrote(x, a, v, lead, o) == Ok(Append(o, RawBytes(x.w.bigEndianHost, a, v)))
  {
    PlainIgnoresHeap(a, v, x.heap);
  }

  lemma WroteSkipped(x: Exchange, a: Type, v: Value, lead: Ref, o: Out)
    requires CanWrite(x, a, v, lead, o) && a.Struct? && !RawBlock(x.w, a) && Skipped(x.w, a)
    ensures v.Items? && Wrote(x, a, v, lead, o) == Ok(o)
  {
  }

  lemma WroteStruct(x: Exchange, a: Type, v: Value, lead: Ref, o: Out)
    requires CanWrite(x, a, v, lead, o) && a.Struct? && !RawBlock(x.w, a) && !Skipped(x.w, a)
    requires Wrote(x, a, v, lead, o).Ok?
    ensures AnySimplyAssignable(a.tags) ==> a.hasFunctions
    ensures v.Items? && CanWriteFields(x, a.fields, v.items, lead, o)
    ensures Wrote(x, a, v, lead, o) == WroteFields(x, a.fields, v.items, lead, o)
  {
  }

  lemma WroteInlineArray(x: Exchange, a: Type, v: Value, lead: Ref, o: Out)
    requires CanWrite(x, a, v, lead, o) && a.Array?
    ensures v.Items? && |v.items| == a.size && CanWriteElems(x, a.elem, v.items, lead, o)
    ensures Wrote(x, a, v, lead, o) == WroteArray(x, a.elem, v.items, lead, o)
  {
  }

  /** A container is its number of items and then the items. */
  lemma WroteVector(x: Exchange, a: Type, v: Value, lead: Ref, o: Out)
    requires CanWrite(x, a, v, lead, o) && a.Vector? && Wrote(x, a, v, lead, o).Ok?
    ensures v.Items? && WriteSize(x.w, |v.items|, o).Ok?
    ensures var sized := WriteSize(x.w, |v.items|, o).value;
            && CanWriteElems(x, a.elem, v.items, Null, sized)
            && Wrote(x, a, v, lead, o) == WroteArray(x, a.elem, v.items, Null, sized)
  {
  }

  lemma WroteString(x: Exchange, a: Type, v: Value, lead: Ref, o: Out)
    requires CanWrite(x, a, v, lead, o) && a.String? && Wrote(x, a, v, lead, o).Ok?
    ensures v.Items? && WriteSize(x.w, |v.items|, o).Ok?
    ensures var sized, units := WriteSize(x.w, |v.items|, o).value, v.items + [Num(0)];
            && CanWriteElems(x, a.unit, units, Null, sized)
            && Wrote(x, a, v, lead, o) == WroteArray(x, a.unit, units, Null, sized)
  {
  }

  lemma WroteMap(x: Exchange, a: Type, v: Value, lead: Ref, o: Out)
    requires CanWrite(x, a, v, lead, o) && a.Map? && Wrote(x, a, v, lead, o).Ok?
    ensures v.Items? && WriteSize(x.w, |v.items|, o).Ok?
    ensures var sized := WriteSize(x.w, |v.items|, o).value;
            && CanWriteElems(x, a.entry, v.items, Null, sized)
            && Wrote(x, a, v, lead, o) == WroteElems(x, a.entry, v.items, false, Null, sized)
  {
  }

  lemma WrotePointer(x: Exchange, a: Type, v: Value, lead: Ref, o: Out)
    requires CanWrite(x, a, v, lead, o) && a.Pointer? && Wrote(x, a, v, lead, o).Ok?
    ensures PointersTravel(x.w) && v.Link? && !v.ref.Element? && a.target in x.w.types
    ensures v.ref.Null? ==> Wrote(x, a, v, lead, o) == WriteSize(x.w, 0, o)
    ensures v.ref.Node? ==> v.ref.id in x.heap && x.heap[v.ref.id].name == a.target
    ensures v.ref.Node? && v.ref in o.seen ==> Wrote(x, a, v, lead, o) == WriteBack(x.w, v.ref, o)
    ensures v.ref.Node? && v.ref !in o.seen ==>
              && WriteSize(x.w, 1, o).Ok?
              && CanWrite(x, x.w.types[a.target], x.heap[v.ref.id].value, v.ref, Entered(x.w, v.ref.id, o))
              && Wrote(x, a, v, lead, o) ==
                 Wrote(x, x.w.types[a.target], x.heap[v.ref.id].value, v.ref, Entered(x.w, v.ref.id, o))
  {
    if v.ref.Node? && v.ref !in o.seen {
      WriteNewUnfolds(x.w, x.heap, a.target, v, lead, o);
    }
  }

  lemma WroteNoFields(x: Exchange, ts: seq<Type>, vs: seq<Value>, lead: Ref, o: Out)
    requires CanWriteFields(x, ts, vs, lead, o) && ts == []
    ensures vs == [] && WroteFields(x, ts, vs, lead, o) == Ok(o)
  {
  }

  lemma WroteFieldsStep(x: Exchange, ts: seq<Type>, vs: seq<Value>, lead: Ref, o: Out)
    requires CanWriteFields(x, ts, vs, lead, o) && ts != []
    ensures vs != [] && |vs| == |ts| && CanWrite(x, ts[0], vs[0], lead, o)
    ensures var next := Wrote(x, ts[0], vs[0], lead, o);
            && (next.Ok? ==> CanWriteFields(x, ts[1..], vs[1..], Null, next.value))
            && WroteFields(x, ts, vs, lead, o) ==
               if next.Ok? then WroteFields(x, ts[1..], vs[1..], Null, next.value) else next
  {
    WriteFieldsUnfolds(x.w, x.heap, ts, vs, lead, o);
  }

  lemma WroteNothing(x: Exchange, e: Type, vs: seq<Value>, lead: Ref, o: Out)
    requires CanWriteElems(x, e, vs, lead, o) && e.Struct? && e.tags.empty
    ensures WroteArray(x, e, vs, lead, o) == Ok(o)
  {
  }

  lemma WroteArrayBlock(x: Exchange, e: Type, vs: seq<Value>, lead: Ref, o: Out)
    requires CanWriteElems(x, e, vs, lead, o) && !(e.Struct? && e.tags.empty) && RawBlock(x.w, e)
    ensures PlainElems(e, vs)
    ensures WroteArray(x, e, vs, lead, o) ==
            Ok(Append(o, (if e.Prim? then SizeTag(x.w, e.scalar) else []) + RawElems(x.w.bigEndianHost, e, vs)))
  {
    RawElemsTyped(e, vs, x.heap);
  }

  lemma WroteArrayElems(x: Exchange, e: Type, vs: seq<Value>, lead: Ref, o: Out)
    requires CanWriteElems(x, e, vs, lead, o) && !(e.Struct? && e.tags.empty) && !RawBlock(x.w, e)
    ensures WroteArray(x, e, vs, lead, o) == WroteElems(x, e, vs, x.w.flags.checkRecursivePointers, lead, o)
  {
  }

  lemma WroteNoElems(x: Exchange, e: Type, vs: seq<Value>, register: bool, lead: Ref, o: Out)
    requires CanWriteElems(x, e, vs, lead, o) && vs == []
    ensures WroteElems(x, e, vs, register, lead, o) == Ok(o)
  {
  }

  lemma WroteElemsStep(x: Exchange, e: Type, vs: seq<Value>, register: bool, lead: Ref, o: Out, noted: Out)
    requires CanWriteElems(x, e, vs, lead, o) && vs != [] && noted == Noted(o, register, lead)
    ensures CanWrite(x, e, vs[0], lead, noted)
    ensures var next := Wrote(x, e, vs[0], lead, noted);
            && (next.Ok? ==> CanWriteElems(x, e, vs[1..], Null, next.value))
            && WroteElems(x, e, vs, register, lead, o) ==
               if next.Ok? then WroteElems(x, e, vs[1..], register, Null, next.value) else next
  {
    WriteElemsUnfolds(x.w, x.heap, e, vs, register, lead, o);
  }

  // ---------------------------------------------------------------- the reader, case by case

  lemma GotPrim(x: Exchange, b: Type, at: Place, s: In)
    requires Readable(x.r, x.bin, b, s) && b.Prim?
    ensures ScalarOk(b.scalar)
    ensures var got := ReadPrim(x.r, x.bin, b.scalar, s);
            Got(x, b, at, s) == if got.Ok? then Ok((Num(got.value.0), got.value.1)) else Err(got.error)
  {
    ReadPrimUnfolds(x.r, x.bin, b, at, s);
  }

  lemma GotSkipped(x: Exchange, b: Type, at: Place, s: In)
    requires Readable(x.r, x.bin, b, s) && b.Struct? && !RawBlock(x.r, b) && Skipped(x.r, b)
    ensures Plain(b) && TypeOk(b) && Got(x, b, at, s) == Ok((Held(x.r, b, at), s))
  {
    ReadSkippedUnfolds(x.r, x.bin, b, at, s);
  }

  lemma GotStruct(x: Exchange, b: Type, at: Place, s: In)
    requires Readable(x.r, x.bin, b, s) && b.Struct? && !RawBlock(x.r, b) && !Skipped(x.r, b)
    requires AnySimplyAssignable(b.tags) ==> b.hasFunctions
    ensures Got(x, b, at, s) == Wrapped(GotFields(x, b.fields, at, 0, s))
  {
    ReadStructUnfolds(x.r, x.bin, b, at, s);
  }

  lemma GotMarker(x: Exchange, b: Type, at: Place, s: In, offset: nat, after: In)
    requires Readable(x.r, x.bin, b, s) && b.Pointer? && PointersTravel(x.r)
    requires ReadSize(x.r, x.bin, s) == Ok((offset, after)) && offset != 1 && offset < after.cursor
    ensures Got(x, b, at, s) ==
            if offset == 0 then Ok((Link(Null), after)) else
              var ref := if offset in after.places then after.places[offset] else Null;
              Ok((Link(ref), after.(places := after.places[offset := ref])))
  {
    ReadMarker(x.r, x.bin, b, at, s, offset, after);
  }

  lemma GotNew(x: Exchange, b: Type, at: Place, s: In, after: In, entered: In)
    requires Readable(x.r, x.bin, b, s) && b.Pointer? && PointersTravel(x.r)
    requires ReadSize(x.r, x.bin, s) == Ok((1, after)) && b.target in x.r.types
    requires entered == after.(next := after.next + 1, places := after.places[after.cursor := Node(after.next)])
    ensures var pointee := Got(x, x.r.types[b.target], Object(after.next), entered);
            Got(x, b, at, s) ==
            if pointee.Ok?
            then Ok((Link(Node(after.next)),
                     pointee.value.1.(made := pointee.value.1.made[after.next := Cell(b.target, pointee.value.0)])))
            else Err(pointee.error)
  {
    ReadNew(x.r, x.bin, b, at, s, after, entered);
  }

  lemma GotCounted(x: Exchange, b: Type, n: nat, at: Place, s: In, after: In)
    requires Readable(x.r, x.bin, b, s)
    requires (b.Array? && n == b.size && after == s) || (b.Vector? && ReadSize(x.r, x.bin, s) == Ok((n, after)))
    ensures Got(x, b, at, s) == Wrapped(GotArray(x, b.elem, n, Row(at, b.Array?), after))
  {
    ReadCountedUnfolds(x.r, x.bin, b, n, at, s, after);
  }

  lemma GotString(x: Exchange, b: Type, n: nat, at: Place, s: In, after: In)
    requires Readable(x.r, x.bin, b, s) && b.String? && ReadSize(x.r, x.bin, s) == Ok((n, after))
    ensures var got := GotArray(x, b.unit, n + 1, Row(at, false), after);
            Got(x, b, at, s) == if got.Ok? then Ok((Items(got.value.0[..n]), got.value.1)) else Err(got.error)
  {
    ReadStringUnfolds(x.r, x.bin, b, n, at, s, after);
  }

  lemma GotMap(x: Exchange, b: Type, n: nat, at: Place, s: In, after: In)
    requires Readable(x.r, x.bin, b, s) && b.Map? && ReadSize(x.r, x.bin, s) == Ok((n, after))
    ensures Got(x, b, at, s) == AllInserted(GotElems(x, b.entry, n, false, Row(at, false), 0, after), [], [])
  {
    ReadMapUnfolds(x.r, x.bin, b, n, at, s, after);
  }

  lemma GotNoFields(x: Exchange, us: seq<Type>, whole: Place, k: nat, s: In)
    requires us == [] && ContextOk(x.r) && Fresh(s) && s.cursor <= |x.bin|
    ensures GotFields(x, us, whole, k, s) == Ok(([], s))
  {
  }

  lemma GotFieldsStep(x: Exchange, us: seq<Type>, whole: Place, k: nat, s: In)
    requires us != [] && FieldsReadable(x.r, us) && Fresh(s) && s.cursor <= |x.bin|
    ensures var head := Got(x, us[0], Part(whole, k), s);
            GotFields(x, us, whole, k, s) ==
            Prepend(head, if head.Ok? then GotFields(x, us[1..], whole, k + 1, head.value.1) else Ok(([], s)))
  {
    ReadFieldsUnfolds(x.r, x.bin, us, whole, k, s);
  }

  lemma GotNothing(x: Exchange, f: Type, n: nat, row: Row, s: In)
    requires Readable(x.r, x.bin, f, s) && f.Struct? && f.tags.empty
    ensures f.fields == [] && !AnySimplyAssignable(f.tags)
    ensures GotArray(x, f, n, row, s) == Ok((seq(n, _ => Items([])), s))
  {
    assert Default(f) == Items([]);
  }

  lemma GotArrayElems(x: Exchange, f: Type, n: nat, row: Row, s: In)
    requires Readable(x.r, x.bin, f, s) && !(f.Struct? && f.tags.empty) && !RawBlock(x.r, f)
    ensures GotArray(x, f, n, row, s) == GotElems(x, f, n, x.r.flags.checkRecursivePointers, row, 0, s)
  {
  }

  lemma GotNoElems(x: Exchange, f: Type, register: bool, row: Row, k: nat, s: In)
    requires Readable(x.r, x.bin, f, s)
    ensures GotElems(x, f, 0, register, row, k, s) == Ok(([], s))
  {
  }

  lemma GotElemsStep(x: Exchange, f: Type, n: nat, register: bool, row: Row, k: nat, s: In, noted: In)
    requires 0 < n && Readable(x.r, x.bin, f, s) && noted == NotedIn(s, register, Spot(row, k))
    ensures Readable(x.r, x.bin, f, noted)
    ensures var head := Got(x, f, Spot(row, k), noted);
            GotElems(x, f, n, register, row, k, s) ==
            Prepend(head, if head.Ok? then GotElems(x, f, n - 1, register, row, k + 1, head.value.1) else Ok(([], s)))
  {
    ReadElemsUnfolds(x.r, x.bin, f, n, register, row, k, s, noted);
  }
}
