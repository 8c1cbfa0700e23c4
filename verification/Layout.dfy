/** Memory images: what a raw copy of a plain type puts on the wire, and what it restores. */
module Layout {
  import opened Bytes
  import opened Types

  predicate PlainValue(t: Type, v: Value) {
    Plain(t) && TypeOk(t) && HasType(t, v, map[])
  }

  lemma {:induction false} PlainIgnoresHeap(t: Type, v: Value, heap: Heap)
    requires Plain(t) && TypeOk(t)
    ensures HasType(t, v, heap) <==> HasType(t, v, map[])
  {
    match t
    case Prim(_) =>
    case Array(e, n) =>
      if v.Items? {
        forall i | 0 <= i < |v.items| ensures HasType(e, v.items[i], heap) <==> HasType(e, v.items[i], map[]) {
          PlainIgnoresHeap(e, v.items[i], heap);
        }
      }
    case Struct(_, _, _, fields, _) =>
      if v.Items? && |v.items| == |fields| {
        forall i | 0 <= i < |fields|
          ensures HasType(fields[i], v.items[i], heap) <==> HasType(fields[i], v.items[i], map[])
        {
          PlainIgnoresHeap(fields[i], v.items[i], heap);
        }
      }
  }

  function Padding(n: nat): (s: seq<Byte>)
    ensures |s| == n
  {
    seq(n, _ => 0)
  }

  predicate PlainFields(ts: seq<Type>, pads: seq<nat>, vs: seq<Value>) {
    |ts| == |pads| == |vs| && forall i | 0 <= i < |ts| :: PlainValue(ts[i], vs[i])
  }

  predicate PlainElems(e: Type, vs: seq<Value>) {
    Plain(e) && TypeOk(e) && forall i | 0 <= i < |vs| :: HasType(e, vs[i], map[])
  }

  /** The bytes of `v` in the memory of a host; padding is written as zeros. */
  function RawBytes(bigEndian: bool, t: Type, v: Value): (s: seq<Byte>)
    requires PlainValue(t, v)
    ensures |s| == RawSize(t)
    decreases t, 0
  {
    match t
    case Prim(sc) => Native(bigEndian, Pattern(sc, v.n), sc.width)
    case Array(e, n) => RawElems(bigEndian, e, v.items)
    case Struct(_, _, _, fields, pads) => RawFields(bigEndian, fields, pads, v.items)
  }

  function RawElems(bigEndian: bool, e: Type, vs: seq<Value>): (s: seq<Byte>)
    requires PlainElems(e, vs)
    ensures |s| == BlockSize(RawSize(e), |vs|)
    decreases e, 1 + |vs|
  {
    if vs == [] then [] else
      RawBytes(bigEndian, e, vs[0]) + RawElems(bigEndian, e, vs[1..])
  }

  function RawFields(bigEndian: bool, ts: seq<Type>, pads: seq<nat>, vs: seq<Value>): (s: seq<Byte>)
    requires PlainFields(ts, pads, vs)
    ensures |s| == RawSizes(ts, pads)
    decreases ts, 0
  {
    if ts == [] then [] else
      RawBytes(bigEndian, ts[0], vs[0]) + Padding(pads[0]) + RawFields(bigEndian, ts[1..], pads[1..], vs[1..])
  }

  /** The value a host finds in `s`, a memory image of `t`; padding is not looked at. */
  function FromRaw(bigEndian: bool, t: Type, s: seq<Byte>): (v: Value)
    requires Plain(t) && TypeOk(t) && |s| == RawSize(t)
    decreases t, 0
  {
    match t
    case Prim(sc) =>
      FromNativeBounded(bigEndian, s);
      Num(FromPattern(sc, FromNative(bigEndian, s)))
    case Array(e, n) => Items(FromRawElems(bigEndian, e, n, s))
    case Struct(_, _, _, fields, pads) => Items(FromRawFields(bigEndian, fields, pads, s))
  }

  function FromRawElems(bigEndian: bool, e: Type, n: nat, s: seq<Byte>): (vs: seq<Value>)
    requires Plain(e) && TypeOk(e) && |s| == BlockSize(RawSize(e), n)
    ensures |vs| == n
    decreases e, 1 + n
  {
    if n == 0 then [] else
      [FromRaw(bigEndian, e, s[..RawSize(e)])] + FromRawElems(bigEndian, e, n - 1, s[RawSize(e)..])
  }

  function FromRawFields(bigEndian: bool, ts: seq<Type>, pads: seq<nat>, s: seq<Byte>): (vs: seq<Value>)
    requires |ts| == |pads| && (forall t | t in ts :: Plain(t) && TypeOk(t)) && |s| == RawSizes(ts, pads)
    ensures |vs| == |ts|
    decreases ts, 0
  {
    if ts == [] then [] else
      var n := RawSize(ts[0]);
      [FromRaw(bigEndian, ts[0], s[..n])] + FromRawFields(bigEndian, ts[1..], pads[1..], s[n + pads[0]..])
  }

  // ---------------------------------------------------------------- a memory image restores the value

  lemma {:induction false} RawDecodes(bigEndian: bool, t: Type, v: Value)
    requires PlainValue(t, v)
    ensures FromRaw(bigEndian, t, RawBytes(bigEndian, t, v)) == v
    decreases t, 0
  {
    match t
    case Prim(sc) =>
      NativeDecodes(bigEndian, Pattern(sc, v.n), sc.width);
      PatternDecodes(sc, v.n);
    case Array(e, n) => RawElemsDecode(bigEndian, e, v.items);
    case Struct(_, _, _, fields, pads) => RawFieldsDecode(bigEndian, fields, pads, v.items);
  }

  lemma {:induction false} RawElemsDecode(bigEndian: bool, e: Type, vs: seq<Value>)
    requires PlainElems(e, vs)
    ensures FromRawElems(bigEndian, e, |vs|, RawElems(bigEndian, e, vs)) == vs
    decreases e, 1 + |vs|
  {
    if vs != [] {
      RawDecodes(bigEndian, e, vs[0]);
      RawElemsDecode(bigEndian, e, vs[1..]);
      var s := RawElems(bigEndian, e, vs);
      assert s[..RawSize(e)] == RawBytes(bigEndian, e, vs[0]);
      assert s[RawSize(e)..] == RawElems(bigEndian, e, vs[1..]);
    }
  }

  lemma {:induction false} RawFieldsDecode(bigEndian: bool, ts: seq<Type>, pads: seq<nat>, vs: seq<Value>)
    requires PlainFields(ts, pads, vs)
    ensures FromRawFields(bigEndian, ts, pads, RawFields(bigEndian, ts, pads, vs)) == vs
    decreases ts, 0
  {
    if ts != [] {
      RawDecodes(bigEndian, ts[0], vs[0]);
      RawFieldsDecode(bigEndian, ts[1..], pads[1..], vs[1..]);
      var s, n := RawFields(bigEndian, ts, pads, vs), RawSize(ts[0]);
      assert s[..n] == RawBytes(bigEndian, ts[0], vs[0]);
      assert s[n + pads[0]..] == RawFields(bigEndian, ts[1..], pads[1..], vs[1..]);
    }
  }

  // ---------------------------------------------------------------- images that no byte order changes

  lemma {:induction false} OctetsIgnoreEndianness(t: Type, v: Value)
    requires PlainValue(t, v) && Octets(t)
    ensures RawBytes(true, t, v) == RawBytes(false, t, v)
    decreases t, 0
  {
    match t
    case Prim(sc) =>
    case Array(e, n) => OctetElemsIgnoreEndianness(e, v.items);
    case Struct(_, _, _, fields, pads) => OctetFieldsIgnoreEndianness(fields, pads, v.items);
  }

  lemma {:induction false} OctetElemsIgnoreEndianness(e: Type, vs: seq<Value>)
    requires PlainElems(e, vs) && Octets(e)
    ensures RawElems(true, e, vs) == RawElems(false, e, vs)
    decreases e, 1 + |vs|
  {
    if vs != [] {
      OctetsIgnoreEndianness(e, vs[0]);
      OctetElemsIgnoreEndianness(e, vs[1..]);
    }
  }

  lemma {:induction false} OctetFieldsIgnoreEndianness(ts: seq<Type>, pads: seq<nat>, vs: seq<Value>)
    requires PlainFields(ts, pads, vs) && forall t | t in ts :: Octets(t)
    ensures RawFields(true, ts, pads, vs) == RawFields(false, ts, pads, vs)
    decreases ts, 0
  {
    if ts != [] {
      OctetsIgnoreEndianness(ts[0], vs[0]);
      OctetFieldsIgnoreEndianness(ts[1..], pads[1..], vs[1..]);
    }
  }

  lemma {:induction false} RawSizePositive(t: Type)
    requires Plain(t) && TypeOk(t)
    ensures 0 < RawSize(t)
  {
    match t
    case Prim(_) =>
    case Array(e, n) => RawSizePositive(e);
    case Struct(_, _, _, fields, pads) => RawSizePositive(fields[0]);
  }

  /** A plain type of size one is a single octet. */
  lemma {:induction false} SizeOneIsOctet(t: Type)
    requires Plain(t) && TypeOk(t) && RawSize(t) == 1
    ensures Octets(t)
  {
    match t
    case Prim(_) =>
    case Array(e, n) =>
      RawSizePositive(e);
      SizeOneIsOctet(e);
    case Struct(_, _, _, fields, pads) =>
      RawSizePositive(fields[0]);
      if |fields| > 1 {
        RawSizePositive(fields[1]);
        assert RawSizes(fields[1..], pads[1..]) >= RawSize(fields[1]);
      }
      SizeOneIsOctet(fields[0]);
  }
}
