/** What the reader finds where the writer put a size, a scalar or a raw block. */
module Leaves {
  import opened Status
  import opened Bytes
  import opened Types
  import opened Layout
  import opened Twins
  import opened Writer
  import opened Reader
  import opened Graph

  /** The bytes of `bin` from offset `at` on begin with `x`. */
  predicate At(bin: Bin, at: nat, x: seq<Byte>) {
    at + |x| <= |bin| && bin[at..at + |x|] == x
  }

  lemma PrefixIsAt(before: seq<Byte>, x: seq<Byte>, bin: Bin)
    requires before + x <= bin
    ensures At(bin, |before|, x)
  {
    assert x == (before + x)[|before|..];
  }

  lemma AtSplits(bin: Bin, at: nat, x: seq<Byte>, y: seq<Byte>)
    requires At(bin, at, x + y)
    ensures At(bin, at, x) && At(bin, at + |x|, y)
  {
    assert x == (x + y)[..|x|] && y == (x + y)[|x|..];
  }

  lemma SizeArrives(w: Context, r: Context, n: nat, o: Out, bin: Bin, s: In)
    requires w.flags == r.flags
    requires s.cursor == |o.bin| && WriteSize(w, n, o).Ok? && WriteSize(w, n, o).value.bin <= bin
    ensures ReadSize(r, bin, s) == Ok((n, s.(cursor := |WriteSize(w, n, o).value.bin|)))
  {
    var width, format := SizeWidth(w.flags), w.flags.bigEndianFormat;
    PrefixIsAt(o.bin, PrimitiveBytes(w.bigEndianHost, format, n, width), bin);
    PrimitiveRoundTrip(w.bigEndianHost, r.bigEndianHost, format, n, width);
  }

  lemma DecodesAsTwin(a: Scalar, b: Scalar, n: int)
    requires a.signed == b.signed && InRange(a, n)
    ensures FromPattern(b.(width := a.width), Pattern(a, n)) == n
  {
  }

  lemma PrimAsArrives(w: Context, r: Context, a: Scalar, b: Scalar, n: int, bin: Bin, s: In)
    requires w.flags == r.flags && a.signed == b.signed && ScalarOk(a) && ScalarOk(b) && InRange(a, n) && Fresh(s)
    requires At(bin, s.cursor, PrimitiveBytes(w.bigEndianHost, w.flags.bigEndianFormat, Pattern(a, n), a.width))
    ensures ReadPrimAs(r, bin, a.width, b, s) ==
            if InRange(b, n) then Ok((n, s.(cursor := s.cursor + a.width))) else Err(ErrorValueOverflow)
  {
    var format, p := w.flags.bigEndianFormat, Pattern(a, n);
    var raw := PrimitiveBytes(w.bigEndianHost, format, p, a.width);
    assert Fetch(bin, a.width, s) == Ok((raw, s.(cursor := s.cursor + a.width)));
    PrimitiveRoundTrip(w.bigEndianHost, r.bigEndianHost, format, p, a.width);
    FetchedDecodes(r, bin, a, b, n, raw, s);
  }

  lemma FetchedDecodes(r: Context, bin: Bin, a: Scalar, b: Scalar, n: int, raw: seq<Byte>, s: In)
    requires a.signed == b.signed && ScalarOk(a) && ScalarOk(b) && InRange(a, n) && Fresh(s)
    requires Fetch(bin, a.width, s) == Ok((raw, s.(cursor := s.cursor + a.width)))
    requires PrimitiveValue(r.bigEndianHost, r.flags.bigEndianFormat, raw) == Pattern(a, n)
    ensures ReadPrimAs(r, bin, a.width, b, s) ==
            if InRange(b, n) then Ok((n, s.(cursor := s.cursor + a.width))) else Err(ErrorValueOverflow)
  {
    DecodesAsTwin(a, b, n);
  }

  /** A scalar comes back exactly when it is in range for the reader's type; otherwise the error is the overflow. */
  lemma PrimArrives(w: Context, r: Context, a: Scalar, b: Scalar, n: int, o: Out, bin: Bin, s: In)
    requires w.flags == r.flags && ScalarTwins(w.flags, a, b) && ScalarOk(a) && ScalarOk(b) && InRange(a, n)
    requires Fresh(s) && s.cursor == |o.bin| && WritePrim(w, a, n, o).bin <= bin
    ensures ReadPrim(r, bin, b, s) ==
            if InRange(b, n) then Ok((n, s.(cursor := |WritePrim(w, a, n, o).bin|))) else Err(ErrorValueOverflow)
  {
    var tag := SizeTag(w, a);
    var bytes := PrimitiveBytes(w.bigEndianHost, w.flags.bigEndianFormat, Pattern(a, n), a.width);
    PrefixIsAt(o.bin, tag + bytes, bin);
    AtSplits(bin, |o.bin|, tag, bytes);
    TagArrives(w, r, a, b, bin, s);
    PrimAsArrives(w, r, a, b, n, bin, s.(cursor := |o.bin| + |tag|));
  }

  /** The size tag, where there is one, tells the width that follows. */
  lemma TagArrives(w: Context, r: Context, a: Scalar, b: Scalar, bin: Bin, s: In)
    requires w.flags == r.flags && ScalarTwins(w.flags, a, b) && ScalarOk(a) && ScalarOk(b) && Fresh(s)
    requires At(bin, s.cursor, SizeTag(w, a))
    ensures ReadPrim(r, bin, b, s) == ReadPrimAs(r, bin, a.width, b, s.(cursor := s.cursor + |SizeTag(w, a)|))
  {
    if Tagged(w, a) {
      assert Fetch(bin, 1, s) == Ok(([a.width], s.(cursor := s.cursor + 1)));
    }
  }

  lemma PrimBytesAreNative(w: Context, a: Scalar, n: int)
    requires w.bigEndianHost == w.flags.bigEndianFormat && InRange(a, n)
    ensures PrimitiveBytes(w.bigEndianHost, w.flags.bigEndianFormat, Pattern(a, n), a.width) ==
            Native(w.bigEndianHost, Pattern(a, n), a.width)
  {
  }

  ghost predicate PrimsRead(r: Context, bin: Bin, width: nat, b: Scalar, vs: seq<Value>, s: In)
    requires ScalarOk(b) && Fresh(s) && s.cursor <= |bin|
  {
    var got := ReadPrimsAs(r, bin, width, b, |vs|, s);
    && (FitElems(r, Prim(b), vs) ==> got == Ok((vs, s.(cursor := s.cursor + BlockSize(width, |vs|)))))
    && (!FitElems(r, Prim(b), vs) ==> got == Err(ErrorValueOverflow))
  }

  /** The first element of a raw array of integers. */
  lemma RawHeadArrives(bigEndian: bool, a: Scalar, vs: seq<Value>, bin: Bin, at: nat)
    requires PlainElems(Prim(a), vs) && vs != []
    requires At(bin, at, RawElems(bigEndian, Prim(a), vs))
    ensures vs[0].Num? && InRange(a, vs[0].n)
    ensures At(bin, at, Native(bigEndian, Pattern(a, vs[0].n), a.width))
    ensures At(bin, at + a.width, RawElems(bigEndian, Prim(a), vs[1..]))
  {
    assert HasType(Prim(a), vs[0], map[]);
    AtSplits(bin, at, RawBytes(bigEndian, Prim(a), vs[0]), RawElems(bigEndian, Prim(a), vs[1..]));
  }

  lemma PrimsHeadArrives(w: Context, r: Context, a: Scalar, b: Scalar, vs: seq<Value>, bin: Bin, s: In)
    requires w.flags == r.flags && a.signed == b.signed && ScalarOk(a) && ScalarOk(b)
    requires w.bigEndianHost == w.flags.bigEndianFormat
    requires PlainElems(Prim(a), vs) && vs != [] && Fresh(s) && s.cursor <= |bin|
    requires At(bin, s.cursor, RawElems(w.bigEndianHost, Prim(a), vs))
    ensures vs[0].Num? && At(bin, s.cursor + a.width, RawElems(w.bigEndianHost, Prim(a), vs[1..]))
    ensures ReadPrimAs(r, bin, a.width, b, s) ==
            if InRange(b, vs[0].n) then Ok((vs[0].n, s.(cursor := s.cursor + a.width))) else Err(ErrorValueOverflow)
  {
    RawHeadArrives(w.bigEndianHost, a, vs, bin, s.cursor);
    PrimBytesAreNative(w, a, vs[0].n);
    PrimAsArrives(w, r, a, b, vs[0].n, bin, s);
  }

  lemma {:induction false} PrimsAsArrive(w: Context, r: Context, a: Scalar, b: Scalar, vs: seq<Value>, bin: Bin, s: In)
    requires w.flags == r.flags && a.signed == b.signed && ScalarOk(a) && ScalarOk(b)
    requires w.bigEndianHost == w.flags.bigEndianFormat
    requires PlainElems(Prim(a), vs) && Fresh(s) && s.cursor <= |bin|
    requires At(bin, s.cursor, RawElems(w.bigEndianHost, Prim(a), vs))
    ensures PrimsRead(r, bin, a.width, b, vs, s)
    decreases vs
  {
    if vs != [] {
      PrimsHeadArrives(w, r, a, b, vs, bin, s);
      if InRange(b, vs[0].n) {
        var after := s.(cursor := s.cursor + a.width);
        PrimsAsArrive(w, r, a, b, vs[1..], bin, after);
        PrimsReadJoin(r, bin, a.width, b, vs, s, after);
      } else {
        assert !Fits(r, Prim(b), vs[0]);
      }
    }
  }

  lemma PrimsReadJoin(r: Context, bin: Bin, width: nat, b: Scalar, vs: seq<Value>, s: In, after: In)
    requires ScalarOk(b) && Fresh(s) && s.cursor <= |bin| && after == s.(cursor := s.cursor + width)
    requires after.cursor <= |bin|
    requires vs != [] && vs[0].Num? && InRange(b, vs[0].n)
    requires ReadPrimAs(r, bin, width, b, s) == Ok((vs[0].n, after))
    requires PrimsRead(r, bin, width, b, vs[1..], after)
    ensures PrimsRead(r, bin, width, b, vs, s)
  {
    PrimsAsStep(r, bin, width, b, |vs|, s, vs[0].n, after);
    assert vs == [vs[0]] + vs[1..] && Fits(r, Prim(b), vs[0]);
  }

  lemma PrimsAsStep(r: Context, bin: Bin, width: nat, b: Scalar, n: nat, s: In, x: int, after: In)
    requires ScalarOk(b) && Fresh(s) && s.cursor <= |bin| && 0 < n
    requires ReadPrimAs(r, bin, width, b, s) == Ok((x, after))
    ensures Fresh(after) && after.cursor <= |bin|
    ensures var rest := ReadPrimsAs(r, bin, width, b, n - 1, after);
            ReadPrimsAs(r, bin, width, b, n, s) ==
            if rest.Ok? then Ok(([Num(x)] + rest.value.0, rest.value.1)) else Err(rest.error)
  {
  }

  lemma BlockArrives(r: Context, e: Type, vs: seq<Value>, bin: Bin, s: In)
    requires PlainElems(e, vs) && Fresh(s) && At(bin, s.cursor, RawElems(r.bigEndianHost, e, vs))
    ensures ReadBlock(r, bin, e, |vs|, s) ==
            Ok((vs, s.(cursor := s.cursor + |RawElems(r.bigEndianHost, e, vs)|)))
  {
    RawElemsDecode(r.bigEndianHost, e, vs);
  }

  /** The bytes of a raw array, with the tag in front for integers of unsettled width. */
  function BlockBytes(w: Context, e: Type, vs: seq<Value>): seq<Byte>
    requires PlainElems(e, vs)
  {
    (if e.Prim? then SizeTag(w, e.scalar) else []) + RawElems(w.bigEndianHost, e, vs)
  }

  lemma ReadUntaggedBlock(r: Context, bin: Bin, e: Type, n: nat, row: Row, s: In)
    requires Readable(r, bin, e, s) && RawBlock(r, e) && !(e.Prim? && Tagged(r, e.scalar))
    ensures Plain(e) && ReadArray(r, bin, e, n, row, s) == ReadBlock(r, bin, e, n, s)
  {
  }

  lemma ReadTaggedBlock(r: Context, bin: Bin, e: Type, width: nat, n: nat, row: Row, s: In)
    requires Readable(r, bin, e, s) && RawBlock(r, e) && e.Prim? && Tagged(r, e.scalar)
    requires 0 < width < 256 && At(bin, s.cursor, [width])
    ensures var after := s.(cursor := s.cursor + 1);
            ReadArray(r, bin, e, n, row, s) ==
            if width == e.scalar.width
            then ReadBlock(r, bin, e, n, after)
            else ReadPrimsAs(r, bin, width, e.scalar, n, after)
  {
  }

  /** What reading an array must give: all elements, or the overflow when one does not fit. */
  ghost function AllOrOverflow(r: Context, b: Type, vs: seq<Value>, end: In): Result<(seq<Value>, In)> {
    if FitElems(r, b, vs) then Ok((vs, end)) else Err(ErrorValueOverflow)
  }

  lemma TagThenBlock(w: Context, a: Type, vs: seq<Value>, bin: Bin, at: nat)
    requires a.Prim? && ScalarOk(a.scalar) && Tagged(w, a.scalar) && PlainElems(a, vs)
    requires At(bin, at, BlockBytes(w, a, vs))
    ensures var raw := RawElems(w.bigEndianHost, a, vs);
            At(bin, at, [a.scalar.width]) && At(bin, at + 1, raw) && |BlockBytes(w, a, vs)| == 1 + |raw|
  {
    AtSplits(bin, at, [a.scalar.width], RawElems(w.bigEndianHost, a, vs));
  }

  lemma TaggedBlockArrives(w: Context, r: Context, a: Type, b: Type, vs: seq<Value>, bin: Bin, row: Row, s: In)
    requires w.flags == r.flags && ByteOrderAccepted(w) && ByteOrderAccepted(r) && Readable(r, bin, b, s)
    requires a.Prim? && b.Prim? && ScalarTwins(w.flags, a.scalar, b.scalar) && ElemTwins(w.flags, a, b)
    requires RawBlock(w, a) && RawBlock(r, b) && Tagged(w, a.scalar) && PlainElems(a, vs)
    requires At(bin, s.cursor, BlockBytes(w, a, vs))
    ensures ReadArray(r, bin, b, |vs|, row, s) ==
            AllOrOverflow(r, b, vs, s.(cursor := s.cursor + |BlockBytes(w, a, vs)|))
  {
    var raw, after := RawElems(w.bigEndianHost, a, vs), s.(cursor := s.cursor + 1);
    TagThenBlock(w, a, vs, bin, s.cursor);
    ReadTaggedBlock(r, bin, b, a.scalar.width, |vs|, row, s);
    if a.scalar.width == b.scalar.width {
      SameWidthArrives(w, r, a, b, vs, bin, after);
    } else {
      assert a == Prim(a.scalar) && b == Prim(b.scalar);
      PrimsAsArrive(w, r, a.scalar, b.scalar, vs, bin, after);
    }
  }

  /** Elements of one width on both sides are copied as they are. */
  lemma SameWidthArrives(w: Context, r: Context, a: Type, b: Type, vs: seq<Value>, bin: Bin, s: In)
    requires w.flags == r.flags && ByteOrderAccepted(w) && ByteOrderAccepted(r) && Fresh(s)
    requires a == b || (a.Prim? && b.Prim? && a.scalar.signed == b.scalar.signed && a.scalar.width == b.scalar.width)
    requires RawBlock(w, a) && PlainElems(a, vs) && TypeOk(b) && Plain(b)
    requires At(bin, s.cursor, RawElems(w.bigEndianHost, a, vs))
    ensures FitElems(r, b, vs)
    ensures ReadBlock(r, bin, b, |vs|, s) == Ok((vs, s.(cursor := s.cursor + |RawElems(w.bigEndianHost, a, vs)|)))
  {
    RawTwinsAgree(w, r, a, b, vs);
    BlockArrives(r, b, vs, bin, s);
    TypedElemsFit(r, b, vs, map[]);
  }

  lemma UntaggedBlockArrives(w: Context, r: Context, a: Type, b: Type, vs: seq<Value>, bin: Bin, row: Row, s: In)
    requires w.flags == r.flags && ByteOrderAccepted(w) && ByteOrderAccepted(r) && Readable(r, bin, b, s)
    requires a == b || (a.Prim? && b.Prim? && ScalarTwins(w.flags, a.scalar, b.scalar))
    requires RawBlock(w, a) && RawBlock(r, b) && !(a.Prim? && Tagged(w, a.scalar)) && PlainElems(a, vs)
    requires At(bin, s.cursor, BlockBytes(w, a, vs))
    ensures ReadArray(r, bin, b, |vs|, row, s) ==
            AllOrOverflow(r, b, vs, s.(cursor := s.cursor + |BlockBytes(w, a, vs)|))
  {
    assert BlockBytes(w, a, vs) == RawElems(w.bigEndianHost, a, vs);
    ReadUntaggedBlock(r, bin, b, |vs|, row, s);
    SameWidthArrives(w, r, a, b, vs, bin, s);
  }

  /** A raw array block restores all elements, or reports the overflow when one does not fit. */
  lemma ArrayBlockArrives(w: Context, r: Context, a: Type, b: Type, vs: seq<Value>, bin: Bin, row: Row, s: In)
    requires w.flags == r.flags && w.interfaceVersion == r.interfaceVersion
    requires ByteOrderAccepted(w) && ByteOrderAccepted(r) && Readable(r, bin, b, s)
    requires TypeOk(a) && Twin(w.flags, a, b) && ElemTwins(w.flags, a, b)
    requires RawBlock(w, a) && PlainElems(a, vs)
    requires At(bin, s.cursor, BlockBytes(w, a, vs))
    ensures ReadArray(r, bin, b, |vs|, row, s) ==
            AllOrOverflow(r, b, vs, s.(cursor := s.cursor + |BlockBytes(w, a, vs)|))
  {
    GatesAgree(w, r, a, b);
    if a.Prim? && Tagged(w, a.scalar) {
      TaggedBlockArrives(w, r, a, b, vs, bin, row, s);
    } else {
      UntaggedBlockArrives(w, r, a, b, vs, bin, row, s);
    }
  }

  lemma RawTwinsAgree(w: Context, r: Context, a: Type, b: Type, vs: seq<Value>)
    requires w.flags == r.flags && ByteOrderAccepted(w) && ByteOrderAccepted(r)
    requires RawBlock(w, a) && PlainElems(a, vs)
    requires a == b || (a.Prim? && b.Prim? && a.scalar.signed == b.scalar.signed && a.scalar.width == b.scalar.width)
    ensures PlainElems(b, vs)
    ensures RawElems(w.bigEndianHost, a, vs) == RawElems(r.bigEndianHost, b, vs)
  {
    if w.bigEndianHost != r.bigEndianHost {
      if RawSize(a) == 1 {
        SizeOneIsOctet(a);
      }
      OctetElemsIgnoreEndianness(a, vs);
    }
    SameScalarsSameBytes(r.bigEndianHost, a, b, vs);
  }

  lemma {:induction false} SameScalarsSameBytes(bigEndian: bool, a: Type, b: Type, vs: seq<Value>)
    requires PlainElems(a, vs)
    requires a == b || (a.Prim? && b.Prim? && a.scalar.signed == b.scalar.signed && a.scalar.width == b.scalar.width)
    ensures PlainElems(b, vs)
    ensures RawElems(bigEndian, a, vs) == RawElems(bigEndian, b, vs)
  {
    if a != b && vs != [] {
      SameScalarsSameBytes(bigEndian, a, b, vs[1..]);
      assert HasType(a, vs[0], map[]);
    }
    assert a != b ==> forall i | 0 <= i < |vs| :: HasType(a, vs[i], map[]) ==> HasType(b, vs[i], map[]);
  }
}
