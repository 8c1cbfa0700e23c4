/** One type as two hosts see it: what the flags of a message let differ, and what may then be copied raw. */
module Twins {
  import opened Types
  import opened Layout

  predicate SameWidths(a: Type, b: Type) {
    match a
    case Prim(s) => b.Prim? && s.width == b.scalar.width
    case Array(e, _) => b.Array? && SameWidths(e, b.elem)
    case Struct(_, _, _, fields, _) =>
      b.Struct? && |fields| == |b.fields| && forall i | 0 <= i < |fields| :: SameWidths(fields[i], b.fields[i])
    case _ => true
  }

  predicate ScalarTwins(f: Flags, a: Scalar, b: Scalar) {
    && a.signed == b.signed
    && a.fixed == b.fixed
    && (a.width == b.width || (f.sizeOfIntegersMayBeNotEqual && !a.fixed))
  }

  /** With both size tags and an endianness difference, an array of one-octet integers has a layout of its own. */
  predicate ElemTwins(f: Flags, a: Type, b: Type) {
    a.Prim? && b.Prim? && f.endiannessDifference && f.sizeOfIntegersMayBeNotEqual && !a.scalar.fixed ==>
      (a.scalar.width == 1 <==> b.scalar.width == 1)
  }

  /**
    * `a` and `b` are the same type on two hosts: integer widths differ only under the size flag, padding
    * only under the alignment flag, and the tags keep their promise of fixed sizes on both hosts.
    */
  predicate Twin(f: Flags, a: Type, b: Type) {
    match a
    case Prim(s) => b.Prim? && ScalarTwins(f, s, b.scalar)
    case Pointer(_) => a == b
    case Array(e, n) => b.Array? && b.size == n && Twin(f, e, b.elem) && ElemTwins(f, e, b.elem)
    case Vector(e) => b.Vector? && Twin(f, e, b.elem) && ElemTwins(f, e, b.elem)
    case String(u) => b.String? && Twin(f, u, b.unit) && ElemTwins(f, u, b.unit)
    case Map(e) => b.Map? && Twin(f, e, b.entry)
    case Struct(tags, version, own, fields, pads) =>
      && b.Struct?
      && b.tags == tags && b.version == version && b.hasFunctions == own
      && |b.fields| == |fields|
      && (b.pads == pads || f.alignmentMayBeNotEqual)
      && (tags.fixedSize || tags.always ==> SameWidths(a, b))
      && (f.endiannessDifference && AnySimplyAssignable(tags) && !own ==> (RawSize(a) == 1 <==> RawSize(b) == 1))
      && forall i | 0 <= i < |fields| :: Twin(f, fields[i], b.fields[i])
  }

  /** Two hosts that exchange a message: the writer's context and the reader's. */
  predicate Peers(w: Context, r: Context) {
    && ContextOk(w) && ContextOk(r)
    && ByteOrderAccepted(w) && ByteOrderAccepted(r)
    && w.flags == r.flags
    && w.interfaceVersion == r.interfaceVersion
    && w.types.Keys == r.types.Keys
    && forall name | name in w.types :: Twin(w.flags, w.types[name], r.types[name])
  }

  /** Plain twins with equal widths and equal padding are one and the same type. */
  lemma {:induction false} PlainTwinsEqual(f: Flags, a: Type, b: Type)
    requires Plain(a) && TypeOk(a) && TypeOk(b) && Twin(f, a, b)
    requires !f.sizeOfIntegersMayBeNotEqual || SameWidths(a, b)
    requires !f.alignmentMayBeNotEqual || (NoPads(a) && NoPads(b))
    ensures a == b
  {
    match a
    case Prim(_) =>
    case Array(e, _) => PlainTwinsEqual(f, e, b.elem);
    case Struct(_, _, _, fields, pads) =>
      forall i | 0 <= i < |fields| ensures fields[i] == b.fields[i] {
        PlainTwinsEqual(f, fields[i], b.fields[i]);
      }
      assert fields == b.fields;
      forall i | 0 <= i < |pads| ensures pads[i] == b.pads[i] {
        assert pads[i] in pads && b.pads[i] in b.pads;
      }
      assert pads == b.pads;
  }

  /** Where the tags open the gate, writer and reader hold identical layouts. */
  lemma BlockTwinsEqual(w: Context, a: Type, b: Type)
    requires TypeOk(a) && TypeOk(b) && Twin(w.flags, a, b) && TagGate(w, a)
    ensures a == b
  {
    PlainTwinsEqual(w.flags, a, b);
  }

  /** Writer and reader take the same branch, raw block or element by element. */
  lemma GatesAgree(w: Context, r: Context, a: Type, b: Type)
    requires w.flags == r.flags && w.interfaceVersion == r.interfaceVersion
    requires TypeOk(a) && TypeOk(b) && Twin(w.flags, a, b) && ElemTwins(w.flags, a, b)
    ensures RawBlock(w, a) == RawBlock(r, b)
    ensures RawBlock(w, a) && a.Struct? ==> a == b
  {
    if a.Struct? {
      if TagGate(w, a) {
        BlockTwinsEqual(w, a, b);
      } else {
        assert !TagGate(r, b);
      }
    }
  }

  /** A struct is skipped on both sides or on neither. */
  lemma SkippedAgree(w: Context, r: Context, a: Type, b: Type)
    requires w.flags == r.flags && w.interfaceVersion == r.interfaceVersion && Twin(w.flags, a, b)
    ensures Skipped(w, a) == Skipped(r, b)
  {
  }

  /** Twins hold pointers in the same places. */
  lemma {:induction false} PointersAgree(f: Flags, a: Type, b: Type)
    requires Twin(f, a, b)
    ensures NoPointers(a) <==> NoPointers(b)
  {
    match a
    case Array(e, _) => PointersAgree(f, e, b.elem);
    case Vector(e) => PointersAgree(f, e, b.elem);
    case Map(e) => PointersAgree(f, e, b.entry);
    case Struct(_, _, _, fields, _) =>
      forall i | 0 <= i < |fields| ensures NoPointers(fields[i]) <==> NoPointers(b.fields[i]) {
        PointersAgree(f, fields[i], b.fields[i]);
      }
      assert NoPointers(a) <==> forall i | 0 <= i < |fields| :: NoPointers(fields[i]);
      assert NoPointers(b) <==> forall i | 0 <= i < |fields| :: NoPointers(b.fields[i]);
    case _ =>
  }

  lemma {:induction false} UnskippedAgree(w: Context, r: Context, a: Type, b: Type)
    requires w.flags == r.flags && w.interfaceVersion == r.interfaceVersion
    requires TypeOk(a) && TypeOk(b) && Twin(w.flags, a, b) && Unskipped(w, a)
    ensures Unskipped(r, b)
  {
    match a
    case Array(e, _) => UnskippedAgree(w, r, e, b.elem);
    case Vector(e) => UnskippedAgree(w, r, e, b.elem);
    case Map(e) => UnskippedAgree(w, r, e, b.entry);
    case Struct(_, _, _, fields, _) =>
      GatesAgree(w, r, a, b);
      SkippedAgree(w, r, a, b);
      if !RawBlock(w, a) {
        forall f | f in b.fields ensures Unskipped(r, f) {
          var i :| 0 <= i < |b.fields| && b.fields[i] == f;
          UnskippedAgree(w, r, fields[i], b.fields[i]);
        }
      }
    case _ =>
  }

  /** A raw block means the same on both hosts, whatever their byte orders. */
  lemma BlockBytesAgree(w: Context, r: Context, t: Type, v: Value)
    requires w.flags == r.flags && ByteOrderAccepted(w) && ByteOrderAccepted(r)
    requires PlainValue(t, v) && t.Struct? && RawBlock(w, t)
    ensures RawBytes(w.bigEndianHost, t, v) == RawBytes(r.bigEndianHost, t, v)
  {
    if w.bigEndianHost != r.bigEndianHost {
      if RawSize(t) == 1 {
        SizeOneIsOctet(t);
      }
      OctetsIgnoreEndianness(t, v);
    }
  }
}
