/** What stands on the wire: which values travel as raw copies, and the octets of everything else. */
module Wire {
  import opened Status
  import opened Bytes
  import opened Types
  import opened Layout
  import opened Writer

  // ---------------------------------------------------------------- which structs travel raw

  /** The order of octets makes no difference to a type, or is the same on both sides. */
  predicate OrderSuits(f: Flags, t: Type)
    requires t.Struct?
  {
    f.endiannessDifference ==> t.tags.tolerant || RawSize(t) == 1
  }

  /** A struct that a message of this interface version may hold as the sender has it in memory, its tags permitting. */
  predicate MayBeCopied(f: Flags, version: nat, t: Type)
    requires t.Struct?
  {
    !f.tagsTurnedOff && t.version <= version && OrderSuits(f, t)
  }

  /** Some tag permits a raw copy: each promises that certain differences between hosts do not touch the struct. */
  predicate TagSuits(f: Flags, tags: Tags) {
    if f.alignmentMayBeNotEqual && f.sizeOfIntegersMayBeNotEqual then tags.always
    else if f.alignmentMayBeNotEqual then tags.always || tags.alignedToOne
    else if f.sizeOfIntegersMayBeNotEqual then tags.always || tags.fixedSize
    else AnySimplyAssignable(tags)
  }

  predicate CopiesRaw(f: Flags, version: nat, t: Type) {
    t.Struct? && MayBeCopied(f, version, t) && TagSuits(f, t.tags)
  }

  /** A tagged struct without functions of its own that is neither written nor refused. */
  predicate PassedOver(f: Flags, version: nat, t: Type) {
    && t.Struct? && AnySimplyAssignable(t.tags) && !t.hasFunctions
    && (version < t.version || !OrderSuits(f, t))
  }

  /** The decision on a single struct: raw, passed over, refused, or field by field. */
  lemma StructTravels(c: Context, heap: Heap, t: Type, v: Value, lead: Ref, o: Out)
    requires Writable(c, heap, t) && HasType(t, v, heap) && AtLead(lead, o) && t.Struct?
    ensures CopiesRaw(c.flags, c.interfaceVersion, t) ==>
              PlainValue(t, v) && Write(c, heap, t, v, lead, o) == Ok(Append(o, RawBytes(c.bigEndianHost, t, v)))
    ensures !CopiesRaw(c.flags, c.interfaceVersion, t) && AnySimplyAssignable(t.tags) && !t.hasFunctions ==>
              Write(c, heap, t, v, lead, o) == if PassedOver(c.flags, c.interfaceVersion, t) then Ok(o)
                                               else Err(ErrorNotSupportedSerializationSettingsForStruct)
    ensures !CopiesRaw(c.flags, c.interfaceVersion, t) && (!AnySimplyAssignable(t.tags) || t.hasFunctions) ==>
              Write(c, heap, t, v, lead, o) == WriteFields(c, heap, t.fields, v.items, lead, o)
  {
    GateIsCopiesRaw(c, t);
    if RawBlock(c, t) {
      PlainIgnoresHeap(t, v, heap);
    }
  }

  lemma GateIsCopiesRaw(c: Context, t: Type)
    requires t.Struct?
    ensures RawBlock(c, t) <==> CopiesRaw(c.flags, c.interfaceVersion, t)
    ensures Skipped(c, t) <==> PassedOver(c.flags, c.interfaceVersion, t)
  {
  }

  /** Arrays of integers are copied raw unless octets are to be swapped. */
  predicate ElemsCopiedRaw(f: Flags, version: nat, e: Type) {
    if e.Prim? then f.endiannessDifference ==> e.scalar.width == 1 else CopiesRaw(f, version, e)
  }

  /** The decision on an array: nothing for an empty type, one block behind a single size tag, or one by one. */
  lemma ArrayTravels(c: Context, heap: Heap, e: Type, vs: seq<Value>, lead: Ref, o: Out)
    requires Writable(c, heap, e) && ElemsTyped(e, vs, heap) && AtLead(lead, o)
    ensures e.Struct? && e.tags.empty ==> WriteArray(c, heap, e, vs, lead, o) == Ok(o)
    ensures !(e.Struct? && e.tags.empty) && ElemsCopiedRaw(c.flags, c.interfaceVersion, e) ==>
              && PlainElems(e, vs)
              && var tag := if e.Prim? && c.flags.sizeOfIntegersMayBeNotEqual && !e.scalar.fixed then [e.scalar.width]
                            else [];
                 WriteArray(c, heap, e, vs, lead, o) == Ok(Append(o, tag + RawElems(c.bigEndianHost, e, vs)))
    ensures !(e.Struct? && e.tags.empty) && !ElemsCopiedRaw(c.flags, c.interfaceVersion, e) ==>
              WriteArray(c, heap, e, vs, lead, o) ==
              WriteElems(c, heap, e, vs, c.flags.checkRecursivePointers, lead, o)
  {
    if e.Struct? {
      GateIsCopiesRaw(c, e);
    }
    if RawBlock(c, e) {
      RawElemsTyped(e, vs, heap);
    }
  }

  // ---------------------------------------------------------------- memory images

  function FieldOffset(ts: seq<Type>, pads: seq<nat>, i: nat): nat
    requires i <= |ts| == |pads|
  {
    if i == 0 then 0 else FieldOffset(ts, pads, i - 1) + RawSize(ts[i - 1]) + pads[i - 1]
  }

  lemma {:induction false} OffsetBehindFirst(ts: seq<Type>, pads: seq<nat>, i: nat)
    requires 0 < i <= |ts| == |pads|
    ensures FieldOffset(ts, pads, i) == RawSize(ts[0]) + pads[0] + FieldOffset(ts[1..], pads[1..], i - 1)
  {
    if 1 < i {
      OffsetBehindFirst(ts, pads, i - 1);
    } else {
      assert FieldOffset(ts, pads, 0) == 0;
    }
  }

  /** `part` stands at `at`. */
  predicate Stands(s: seq<Byte>, at: nat, part: seq<Byte>) {
    at + |part| <= |s| && s[at..at + |part|] == part
  }

  lemma StandsBehind(head: seq<Byte>, rest: seq<Byte>, at: nat, part: seq<Byte>)
    requires Stands(rest, at, part)
    ensures Stands(head + rest, |head| + at, part)
  {
    assert (head + rest)[|head| + at..|head| + at + |part|] == rest[at..at + |part|];
  }

  lemma StandsFirst(head: seq<Byte>, rest: seq<Byte>)
    ensures Stands(head + rest, 0, head)
  {
  }

  lemma RawFieldsSplit(bigEndian: bool, ts: seq<Type>, pads: seq<nat>, vs: seq<Value>)
    requires PlainFields(ts, pads, vs) && ts != []
    ensures PlainValue(ts[0], vs[0]) && PlainFields(ts[1..], pads[1..], vs[1..])
    ensures RawFields(bigEndian, ts, pads, vs) ==
            (RawBytes(bigEndian, ts[0], vs[0]) + Padding(pads[0])) + RawFields(bigEndian, ts[1..], pads[1..], vs[1..])
  {
  }

  lemma FieldStandsFirst(bigEndian: bool, ts: seq<Type>, pads: seq<nat>, vs: seq<Value>)
    requires PlainFields(ts, pads, vs) && ts != []
    ensures Stands(RawFields(bigEndian, ts, pads, vs), 0, RawBytes(bigEndian, ts[0], vs[0]))
  {
    var first, rest := RawBytes(bigEndian, ts[0], vs[0]), RawFields(bigEndian, ts[1..], pads[1..], vs[1..]);
    RawFieldsSplit(bigEndian, ts, pads, vs);
    assert (first + Padding(pads[0])) + rest == first + (Padding(pads[0]) + rest);
  }

  lemma FieldStandsLater(bigEndian: bool, ts: seq<Type>, pads: seq<nat>, vs: seq<Value>, at: nat, part: seq<Byte>)
    requires PlainFields(ts, pads, vs) && ts != []
    requires PlainFields(ts[1..], pads[1..], vs[1..])
    requires Stands(RawFields(bigEndian, ts[1..], pads[1..], vs[1..]), at, part)
    ensures Stands(RawFields(bigEndian, ts, pads, vs), RawSize(ts[0]) + pads[0] + at, part)
  {
    RawFieldsSplit(bigEndian, ts, pads, vs);
    StandsBehind(RawBytes(bigEndian, ts[0], vs[0]) + Padding(pads[0]),
                 RawFields(bigEndian, ts[1..], pads[1..], vs[1..]), at, part);
  }

  /** In a memory image every field stands behind the ones before it and their padding. */
  lemma {:induction false} FieldStandsAtOffset(bigEndian: bool, ts: seq<Type>, pads: seq<nat>, vs: seq<Value>, i: nat)
    requires PlainFields(ts, pads, vs) && i < |ts|
    ensures Stands(RawFields(bigEndian, ts, pads, vs), FieldOffset(ts, pads, i), RawBytes(bigEndian, ts[i], vs[i]))
    decreases i
  {
    if i == 0 {
      FieldStandsFirst(bigEndian, ts, pads, vs);
    } else {
      RawFieldsSplit(bigEndian, ts, pads, vs);
      FieldStandsAtOffset(bigEndian, ts[1..], pads[1..], vs[1..], i - 1);
      OffsetBehindFirst(ts, pads, i);
      FieldStandsLater(bigEndian, ts, pads, vs, FieldOffset(ts[1..], pads[1..], i - 1),
                       RawBytes(bigEndian, ts[i], vs[i]));
    }
  }

  /** And every element of an array behind those before it. */
  lemma {:induction false} ElemStandsAtOffset(bigEndian: bool, e: Type, vs: seq<Value>, i: nat)
    requires PlainElems(e, vs) && i < |vs|
    ensures Stands(RawElems(bigEndian, e, vs), BlockSize(RawSize(e), i), RawBytes(bigEndian, e, vs[i]))
    decreases i
  {
    var head, rest := RawBytes(bigEndian, e, vs[0]), RawElems(bigEndian, e, vs[1..]);
    assert RawElems(bigEndian, e, vs) == head + rest;
    if i == 0 {
      StandsFirst(head, rest);
    } else {
      ElemStandsAtOffset(bigEndian, e, vs[1..], i - 1);
      StandsBehind(head, rest, BlockSize(RawSize(e), i - 1), RawBytes(bigEndian, e, vs[i]));
    }
  }

  // ---------------------------------------------------------------- scalars, sizes and pointers

  /** The part of `p` that was written behind `o`. */
  function Added(o: Out, p: Out): seq<Byte>
    requires |o.bin| <= |p.bin|
  {
    p.bin[|o.bin|..]
  }

  function TwosComplement(n: int, width: nat): int {
    if n < 0 then n + Pow256(width) else n
  }

  /** A scalar is its two's complement, behind an octet with its width if widths may differ and this one may. */
  ghost predicate IsScalar(added: seq<Byte>, f: Flags, s: Scalar, n: int) {
    var tag := if f.sizeOfIntegersMayBeNotEqual && !s.fixed then 1 else 0;
    && |added| == tag + s.width && (tag == 1 ==> added[0] == s.width)
    && 0 <= TwosComplement(n, s.width) && Spells(added[tag..], f.bigEndianFormat, TwosComplement(n, s.width))
  }

  lemma ScalarOctets(c: Context, heap: Heap, s: Scalar, v: Value, lead: Ref, o: Out)
    requires Writable(c, heap, Prim(s)) && HasType(Prim(s), v, heap) && AtLead(lead, o)
    ensures var got := Write(c, heap, Prim(s), v, lead, o);
            && got.Ok? && got.value == o.(bin := got.value.bin) && o.bin <= got.value.bin
            && IsScalar(Added(o, got.value), c.flags, s, v.n)
  {
    PrimIsScalar(c, s, v.n, o);
  }

  lemma PrimIsScalar(c: Context, s: Scalar, n: int, o: Out)
    requires ScalarOk(s) && InRange(s, n)
    ensures IsScalar(Added(o, WritePrim(c, s, n, o)), c.flags, s, n)
  {
    var pattern := Pattern(s, n);
    PrimitiveSpells(c.bigEndianHost, c.flags.bigEndianFormat, pattern, s.width);
    AddedParts(o, SizeTag(c, s), PrimitiveBytes(c.bigEndianHost, c.flags.bigEndianFormat, pattern, s.width));
  }

  lemma AddedParts(o: Out, tag: seq<Byte>, bytes: seq<Byte>)
    ensures var p := Append(o, tag + bytes);
            && o.bin <= p.bin && Added(o, p) == tag + bytes
            && Added(o, p)[..|tag|] == tag && Added(o, p)[|tag|..] == bytes
  {
  }

  /** How many octets a size takes, and the first number that does not fit. */
  function SizeOctets(f: Flags): nat {
    if f.bitness32 then 4 else 8
  }

  function SizeLimit(f: Flags): nat {
    if f.bitness32 then 0x1_0000_0000 else 0x1_0000_0000_0000_0000
  }

  lemma PowersAreLimits()
    ensures Pow256(4) == 0x1_0000_0000 && Pow256(8) == 0x1_0000_0000_0000_0000
  {
    assert Pow256(2) == 65536;
    assert Pow256(4) == 256 * Pow256(3) && Pow256(3) == 256 * Pow256(2);
    assert Pow256(6) == 256 * Pow256(5) && Pow256(5) == 256 * Pow256(4);
    assert Pow256(8) == 256 * Pow256(7) && Pow256(7) == 256 * Pow256(6);
  }

  /** A size is written in as many octets as the message says, or is too great for them. */
  lemma SizeIsSpelt(c: Context, n: nat, o: Out)
    ensures if SizeLimit(c.flags) <= n then WriteSize(c, n, o) == Err(ErrorValueOverflow) else
              var got := WriteSize(c, n, o);
              && got.Ok? && got.value == o.(bin := got.value.bin) && o.bin <= got.value.bin
              && |Added(o, got.value)| == SizeOctets(c.flags)
              && Spells(Added(o, got.value), c.flags.bigEndianFormat, n)
  {
    PowersAreLimits();
    if n < SizeLimit(c.flags) {
      PrimitiveSpells(c.bigEndianHost, c.flags.bigEndianFormat, n, SizeOctets(c.flags));
      assert Added(o, WriteSize(c, n, o).value) ==
             PrimitiveBytes(c.bigEndianHost, c.flags.bigEndianFormat, n, SizeOctets(c.flags));
    }
  }

  /** A container is its number of items and then the items; a string has a zero behind its units. */
  lemma ContainerTravels(c: Context, heap: Heap, t: Type, v: Value, lead: Ref, o: Out)
    requires Writable(c, heap, t) && HasType(t, v, heap) && AtLead(lead, o) && (t.Vector? || t.String? || t.Map?)
    ensures v.Items?
    ensures var got, sized := Write(c, heap, t, v, lead, o), WriteSize(c, |v.items|, o);
            if SizeLimit(c.flags) <= |v.items| then got == Err(ErrorValueOverflow)
            else
              && sized.Ok?
              && match t
                 case Vector(e) => got == WriteArray(c, heap, e, v.items, Null, sized.value)
                 case String(u) => got == WriteArray(c, heap, u, v.items + [Num(0)], Null, sized.value)
                 case Map(e) => got == WriteElems(c, heap, e, v.items, false, Null, sized.value)
                 case _ => false
  {
    SizeIsSpelt(c, |v.items|, o);
  }

  /**
    * What a pointer writes of its own: the number 0 for a null pointer; for an object met before the offset at which
    * it began; and for a new one the number 1, behind which the object begins.
    */
  lemma PointerOctets(c: Context, heap: Heap, name: nat, v: Value, lead: Ref, o: Out)
    requires Writable(c, heap, Pointer(name)) && HasType(Pointer(name), v, heap) && AtLead(lead, o)
    ensures !c.flags.allowUnmanagedPointers ==>
              Write(c, heap, Pointer(name), v, lead, o) == Err(ErrorNotSupportedSerializationSettingsForStruct)
    ensures var got, mark := Write(c, heap, Pointer(name), v, lead, o),
                             if v.ref.Null? then 0 else if v.ref in o.seen then o.seen[v.ref] else 1;
            c.flags.allowUnmanagedPointers ==>
            if SizeLimit(c.flags) <= mark then got == Err(ErrorValueOverflow)
            else
              var own := WriteSize(c, mark, o);
              && own.Ok? && |own.value.bin| == |o.bin| + SizeOctets(c.flags)
              && Spells(Added(o, own.value), c.flags.bigEndianFormat, mark)
              && (mark != 1 || v.ref in o.seen ==>
                    got.Ok? && got.value.bin == own.value.bin && got.value.seen == o.seen)
              && (v.ref.Node? && v.ref !in o.seen && got.Ok? ==>
                    && own.value.bin <= got.value.bin
                    && v.ref in got.value.seen && got.value.seen[v.ref] == |own.value.bin|)
  {
    var mark := if v.ref.Null? then 0 else if v.ref in o.seen then o.seen[v.ref] else 1;
    SizeIsSpelt(c, mark, o);
  }
}
