/** Where the round trip ends: the inputs on which the codec does not give back what was written. */
module Limits {
  import opened Status
  import opened Bytes
  import opened Types
  import opened Layout
  import opened Twins
  import opened Writer
  import opened Reader
  import opened Graph
  import opened Leaves
  import opened Steps
  import opened Offsets
  import opened Isomorphism

  // ---------------------------------------------------------------- pointees without octets

  lemma {:induction false} BlankWrites(c: Context, heap: Heap, t: Type, v: Value, lead: Ref, o: Out)
    requires Writable(c, heap, t) && HasType(t, v, heap) && AtLead(lead, o) && Blank(c, t)
    requires Write(c, heap, t, v, lead, o).Ok?
    ensures Write(c, heap, t, v, lead, o).value == o
    decreases t, 0
  {
    if t.Struct? {
      if !Skipped(c, t) {
        BlankFieldsWrite(c, heap, t.fields, v.items, lead, o);
      }
    }
  }

  lemma {:induction false} BlankFieldsWrite(c: Context, heap: Heap, ts: seq<Type>, vs: seq<Value>, lead: Ref, o: Out)
    requires FieldsWritable(c, heap, ts, vs) && AtLead(lead, o) && BlankFields(c, ts)
    requires WriteFields(c, heap, ts, vs, lead, o).Ok?
    ensures WriteFields(c, heap, ts, vs, lead, o).value == o
    decreases ts, 0
  {
    if ts != [] {
      BlankWrites(c, heap, ts[0], vs[0], lead, o);
      BlankFieldsWrite(c, heap, ts[1..], vs[1..], Null, o);
    }
  }

  /** Two equal pointers, one after the other. */
  function Pair(a: nat): Value {
    Items([Link(Node(a)), Link(Node(a))])
  }

  /** A first pointer to an object that writes nothing: the output ends where the object is recorded. */
  lemma SilentPointeeEnters(w: Context, heap: Heap, name: nat, a: nat, lead: Ref, o: Out)
    requires Writable(w, heap, Pointer(name)) && HasType(Pointer(name), Link(Node(a)), heap) && AtLead(lead, o)
    requires Blank(w, w.types[name]) && Node(a) !in o.seen && Write(w, heap, Pointer(name), Link(Node(a)), lead, o).Ok?
    ensures WriteSize(w, 1, o).Ok?
    ensures Write(w, heap, Pointer(name), Link(Node(a)), lead, o).value == Entered(w, a, o)
  {
    WriteNewUnfolds(w, heap, name, Link(Node(a)), lead, o);
    BlankWrites(w, heap, w.types[name], heap[a].value, Node(a), Entered(w, a, o));
  }

  /**
    * Two equal pointers to an object that writes no octets: as elements of a vector they mislead, the second
    * element being registered at the offset of the object itself.
    */
  lemma SilentPointeeMisleads(w: Context, heap: Heap, name: nat, a: nat, before: seq<Byte>)
    requires CanSend(w, heap, Vector(Pointer(name)), Pair(a)) && name in w.types && Blank(w, w.types[name])
    requires Body(w, heap, Vector(Pointer(name)), Pair(a), before).Ok?
    ensures Misleads(w, heap, Vector(Pointer(name)), Pair(a), before)
  {
    var e, o, vs := Pointer(name), Begun(before), Pair(a).items;
    var sized := WriteSize(w, 2, o).value;
    assert vs[1..] == [Link(Node(a))] && vs[1..][1..] == [];
    assert WriteArray(w, heap, e, vs, Null, sized) ==
           WriteElems(w, heap, e, vs, w.flags.checkRecursivePointers, Null, sized);
    WriteElemsUnfolds(w, heap, e, vs, w.flags.checkRecursivePointers, Null, sized);
    assert w.flags.allowUnmanagedPointers && w.flags.checkRecursivePointers;
    var first := Noted(sized, true, Null);
    SilentPointeeEnters(w, heap, name, a, Null, first);
    var entered := Entered(w, a, first);
    WriteElemsUnfolds(w, heap, e, vs[1..], true, Null, entered);
    var second := Noted(entered, true, Null);
    assert Node(a) in second.lost;
    assert Write(w, heap, e, Link(Node(a)), Null, second) == WriteBack(w, Node(a), second);
  }

  /** As members of a struct the same two pointers do not mislead: nothing is registered between them. */
  lemma SilentPointeeInStruct(w: Context, heap: Heap, t: Type, name: nat, a: nat, before: seq<Byte>)
    requires t.Struct? && t.fields == [Pointer(name), Pointer(name)] && CanSend(w, heap, t, Pair(a))
    requires name in w.types && Blank(w, w.types[name]) && Body(w, heap, t, Pair(a), before).Ok?
    ensures !Misleads(w, heap, t, Pair(a), before)
  {
    var e, o, vs := Pointer(name), Begun(before), Pair(a).items;
    assert t.fields[0] == e && t.fields[1..] == [e] && t.fields[1..][1..] == [];
    assert vs[1..] == [Link(Node(a))] && vs[1..][1..] == [];
    assert Plain(t) ==> Plain(t.fields[0]);
    assert Body(w, heap, t, Pair(a), before) == WriteFields(w, heap, t.fields, vs, Null, o);
    WriteFieldsUnfolds(w, heap, t.fields, vs, Null, o);
    SilentPointeeEnters(w, heap, name, a, Null, o);
    var entered := Entered(w, a, o);
    WriteFieldsUnfolds(w, heap, t.fields[1..], vs[1..], Null, entered);
    assert Write(w, heap, e, Link(Node(a)), Null, entered) == WriteBack(w, Node(a), entered);
  }

  lemma {:induction false} BlankHasNoPointers(c: Context, t: Type)
    requires Blank(c, t) && TypeOk(t)
    ensures NoPointers(t)
    decreases t, 0
  {
    if Skipped(c, t) {
      PlainHasNoPointers(t);
    } else if t.Struct? {
      BlankFieldsHaveNoPointers(c, t.fields);
    }
  }

  lemma {:induction false} BlankFieldsHaveNoPointers(c: Context, ts: seq<Type>)
    requires BlankFields(c, ts) && forall t | t in ts :: TypeOk(t)
    ensures forall t | t in ts :: NoPointers(t)
    decreases ts, 0
  {
    if ts != [] {
      BlankHasNoPointers(c, ts[0]);
      BlankFieldsHaveNoPointers(c, ts[1..]);
    }
  }

  /** A pair of pointers to such an object reaches nothing else. */
  lemma PairReaches(heap: Heap, t: Type, a: nat)
    requires a in heap && NoPointers(t) && TypeOk(t) && HasType(t, heap[a].value, heap)
    ensures forall b | b in Reach(heap, Pair(a)) :: b == a
  {
    NoPointersInside(t, heap[a].value, heap);
    InsideGrows(heap[a].value, {}, {a});
    assert Pair(a).items == [Link(Node(a)), Link(Node(a))];
    assert Inside(Pair(a), {a});
    assert Closed(heap, {a});
    forall b | b in Reach(heap, Pair(a)) ensures b in {a} {
    }
  }

  /** No reader of that vector rebuilds what was written. */
  lemma SilentPointeeIsLost(w: Context, r: Context, heap: Heap, u: Type, name: nat, a: nat, before: seq<Byte>,
                            rest: seq<Byte>, call: nat, s: In)
    requires BodyReady(w, r, heap, Vector(Pointer(name)), u, Pair(a), before, s)
    requires name in w.types && Blank(w, w.types[name])
    ensures var bin := Body(w, heap, Vector(Pointer(name)), Pair(a), before).value.bin + rest;
            && Readable(r, bin, u, s)
            && var got := Read(r, bin, u, Root(call), s);
               got.Ok? ==> forall phi: Naming ::
                 !Isomorphic(r, u, Root(call), heap, Pair(a), got.value.1.made, got.value.0, phi, s.next,
                             got.value.1.next)
  {
    var t := Vector(Pointer(name));
    SilentPointeeMisleads(w, heap, name, a, before);
    GraphRoundTrip(w, r, heap, t, u, Pair(a), before, rest, call, s);
    PairStays(w, r, heap, u, name, a, before, Root(call), BodyNaming(w, heap, t, Pair(a), before, s.next));
  }

  /** Pointers themselves have no map entries. */
  lemma {:induction false} PointersStay(c: Context, name: nat, vs: seq<Value>, row: Row, k: nat)
    ensures ElemEntriesStay(c, Pointer(name), vs, row, k)
    decreases vs
  {
    if vs != [] {
      PointersStay(c, name, vs[1..], row, k + 1);
    }
  }

  /** The only object that such a pair reaches holds no pointers. */
  lemma PairReachesSilent(w: Context, r: Context, heap: Heap, u: Type, name: nat, a: nat, before: seq<Byte>)
    requires Sent(w, r, heap, Vector(Pointer(name)), u, Pair(a), before)
    requires name in w.types && Blank(w, w.types[name])
    ensures name in r.types && NoPointers(r.types[name])
    ensures a in heap && heap[a].name == name && forall b | b in Reach(heap, Pair(a)) :: b == a
  {
    assert HasType(Pointer(name), Pair(a).items[0], heap);
    BlankHasNoPointers(w, w.types[name]);
    PointersAgree(w.flags, w.types[name], r.types[name]);
    PairReaches(heap, w.types[name], a);
  }

  lemma PointersAreTwins(f: Flags, u: Type, name: nat)
    requires Twin(f, Vector(Pointer(name)), u)
    ensures u == Vector(Pointer(name))
  {
    assert Twin(f, Pointer(name), u.elem);
  }

  lemma ReachedAreAddresses(w: Context, heap: Heap, t: Type, v: Value, before: seq<Byte>)
    requires CanSend(w, heap, t, v) && Body(w, heap, t, v, before).Ok?
    ensures Addresses(Body(w, heap, t, v, before).value) <= Reach(heap, v)
  {
    WriteRecordsReach(w, heap, t, v, before);
  }

  lemma PairStays(w: Context, r: Context, heap: Heap, u: Type, name: nat, a: nat, before: seq<Byte>, at: Place,
                  phi: Naming)
    requires Sent(w, r, heap, Vector(Pointer(name)), u, Pair(a), before)
    requires name in w.types && Blank(w, w.types[name])
    requires phi.Keys == Addresses(Body(w, heap, Vector(Pointer(name)), Pair(a), before).value)
    ensures AllStay(r, u, at, heap, Pair(a), phi)
  {
    PairReachesSilent(w, r, heap, u, name, a, before);
    ReachedAreAddresses(w, heap, Vector(Pointer(name)), Pair(a), before);
    PointersAreTwins(w.flags, u, name);
    PointersStay(r, name, Pair(a).items, Row(at, false), 0);
    assert EntriesStay(r, u, Pair(a), at);
    forall b | b in phi && b in heap && heap[b].name in r.types
      ensures EntriesStay(r, r.types[heap[b].name], heap[b].value, Object(phi[b]))
    {
      NoPointersStay(r, r.types[name], heap[a].value, Object(phi[a]));
    }
  }

  // ---------------------------------------------------------------- maps with skipped keys

  /** Entries with one and the same key: only the first is kept. */
  lemma {:induction false} InsertedOnce(got: seq<Value>, vs: seq<Value>)
    requires got != [] && IsEntry(got[0]) && forall v | v in vs :: SameKey(got[0], v)
    ensures InsertAll(got, vs) == got
    decreases vs
  {
    if vs != [] {
      assert vs[0] in vs && Present(got, vs[0]);
      InsertedOnce(got, vs[1..]);
    }
  }

  /** A map whose keys are skipped structs, at a reader whose memory tells nothing. */
  ghost predicate SkipsKeys(r: Context, u: Type) {
    && u.Map? && TypeOk(u) && r.held == map[]
    && !RawBlock(r, u.entry.fields[0]) && Skipped(r, u.entry.fields[0])
  }

  lemma SkippedKeySettles(r: Context, u: Type, f: Flags, t: Type, v: Value, heap: Heap, row: Row, i: nat)
    requires SkipsKeys(r, u) && Typed(f, t, u, v, heap) && v.Items? && i < |v.items|
    ensures var w := SettledElems(r, u.entry, v.items, row, 0)[i];
            IsEntry(w) && w.items[0] == Default(u.entry.fields[0])
  {
    SettledElemsAt(r, u.entry, v.items, row, 0, i);
    assert t.Map? && Twin(f, t.entry, u.entry) && HasType(t.entry, v.items[i], heap);
    assert t.entry.Struct? && |t.entry.fields| == 2 && Twin(f, t.entry.fields[0], u.entry.fields[0]);
    assert IsEntry(v.items[i]) && HasType(t.entry.fields[0], v.items[i].items[0], heap);
    var key, at := v.items[i].items[0], Spot(row, i);
    assert key.Items? && Settled(r, u.entry.fields[0], key, Part(at, 0)) == Default(u.entry.fields[0]);
    assert Settled(r, u.entry, v.items[i], at) == Items(SettledFields(r, u.entry.fields, v.items[i].items, at, 0));
  }

  /** Such a map arrives with one entry, whatever was sent, and a success is reported. */
  lemma SkippedKeysCollide(w: Context, r: Context, heap: Heap, t: Type, u: Type, v: Value, before: seq<Byte>,
                           rest: seq<Byte>, call: nat, s: In)
    requires BodyReady(w, r, heap, t, u, v, before, s) && NoPointers(t) && SkipsKeys(r, u)
    ensures Readable(r, Body(w, heap, t, v, before).value.bin + rest, u, s)
    ensures var got := Read(r, Body(w, heap, t, v, before).value.bin + rest, u, Root(call), s);
            && (got.Ok? <==> Fits(r, u, v))
            && (got.Ok? ==> v.Items? && got.value.0.Items?
                            && |got.value.0.items| == if v.items == [] then 0 else 1)
  {
    ValueRoundTrip(w, r, heap, t, u, v, before, rest, call, s);
    SettlesOnOne(r, u, w.flags, t, v, heap, Root(call));
  }

  lemma SettlesOnOne(r: Context, u: Type, f: Flags, t: Type, v: Value, heap: Heap, at: Place)
    requires SkipsKeys(r, u) && Typed(f, t, u, v, heap)
    ensures v.Items? && Settled(r, u, v, at).Items?
    ensures |Settled(r, u, v, at).items| == if v.items == [] then 0 else 1
  {
    var ws := SettledElems(r, u.entry, v.items, Row(at, false), 0);
    forall i | 0 <= i < |ws| ensures IsEntry(ws[i]) && ws[i].items[0] == Default(u.entry.fields[0]) {
      SkippedKeySettles(r, u, f, t, v, heap, Row(at, false), i);
    }
    if ws != [] {
      assert Insert([], ws[0]) == [ws[0]];
      InsertedOnce([ws[0]], ws[1..]);
    }
  }

  // ---------------------------------------------------------------- arrays of tagged octets

  /** The settings under which the layout of an integer array depends on the width of its elements. */
  ghost predicate TaggedAndSwapped(w: Context, r: Context) {
    && ContextOk(w) && ContextOk(r) && w.flags == r.flags
    && w.flags.endiannessDifference && w.flags.sizeOfIntegersMayBeNotEqual
  }

  lemma TaggedPrimTakesTwo(r: Context, bin: Bin, b: Scalar, at: Place, s: In)
    requires Readable(r, bin, Prim(b), s) && Tagged(r, b) && Read(r, bin, Prim(b), at, s).Ok?
    ensures s.cursor + 2 <= Read(r, bin, Prim(b), at, s).value.1.cursor
  {
    ReadPrimUnfolds(r, bin, Prim(b), at, s);
  }

  /** Reading `n` integers from `s` ends at `t`. */
  ghost predicate ElemsEnd(r: Context, bin: Bin, b: Scalar, n: nat, register: bool, row: Row, k: nat, s: In, t: In) {
    && Readable(r, bin, Prim(b), s) && Tagged(r, b)
    && var got := ReadElems(r, bin, Prim(b), n, register, row, k, s);
       got.Ok? && got.value.1 == t
  }

  lemma NoElemsEnd(r: Context, bin: Bin, b: Scalar, register: bool, row: Row, k: nat, s: In, t: In)
    requires ElemsEnd(r, bin, b, 0, register, row, k, s, t)
    ensures t == s
  {
  }

  lemma TaggedElemTakesTwo(r: Context, bin: Bin, b: Scalar, n: nat, register: bool, row: Row, k: nat, s: In, t: In)
      returns (next: In)
    requires ElemsEnd(r, bin, b, n, register, row, k, s, t) && 0 < n
    ensures s.cursor + 2 <= next.cursor && ElemsEnd(r, bin, b, n - 1, register, row, k + 1, next, t)
  {
    var noted := NotedIn(s, register, Spot(row, k));
    ReadElemsUnfolds(r, bin, Prim(b), n, register, row, k, s, noted);
    TaggedPrimTakesTwo(r, bin, b, Spot(row, k), noted);
    next := Read(r, bin, Prim(b), Spot(row, k), noted).value.1;
  }

  lemma {:induction false} TaggedElemsTakeTwo(r: Context, bin: Bin, b: Scalar, n: nat, register: bool, row: Row, k: nat,
                                              s: In, t: In)
    requires ElemsEnd(r, bin, b, n, register, row, k, s, t)
    ensures s.cursor + 2 * n <= t.cursor
    decreases n
  {
    if n == 0 {
      NoElemsEnd(r, bin, b, register, row, k, s, t);
    } else {
      var next := TaggedElemTakesTwo(r, bin, b, n, register, row, k, s, t);
      TaggedElemsTakeTwo(r, bin, b, n - 1, register, row, k + 1, next, t);
    }
  }

  lemma OctetArrayWritten(w: Context, heap: Heap, a: Scalar, vs: seq<Value>, lead: Ref, o: Out)
    requires ContextOk(w) && w.flags.sizeOfIntegersMayBeNotEqual && HeapOk(w.types, heap)
    requires a.width == 1 && !a.fixed && ElemsTyped(Prim(a), vs, heap) && AtLead(lead, o)
    ensures WriteArray(w, heap, Prim(a), vs, lead, o).Ok?
    ensures |WriteArray(w, heap, Prim(a), vs, lead, o).value.bin| == |o.bin| + 1 + |vs|
    ensures |vs| == 1 ==>
              WriteArray(w, heap, Prim(a), vs, lead, o).value ==
              Append(o, [1] + Native(w.bigEndianHost, Pattern(a, vs[0].n), 1))
  {
    RawElemsTyped(Prim(a), vs, heap);
    var raw := RawElems(w.bigEndianHost, Prim(a), vs);
    BlockSizeIsProduct(1, |vs|);
    assert WriteArray(w, heap, Prim(a), vs, lead, o) == Ok(Append(o, [1] + raw));
    if |vs| == 1 {
      assert raw == RawBytes(w.bigEndianHost, Prim(a), vs[0]) + RawElems(w.bigEndianHost, Prim(a), vs[1..]);
      assert RawBytes(w.bigEndianHost, Prim(a), vs[0]) == Native(w.bigEndianHost, Pattern(a, vs[0].n), 1);
      assert RawElems(w.bigEndianHost, Prim(a), vs[1..]) == [];
    }
  }

  /** An array of one-octet integers, read as wider ones: all that was written is consumed for one element only. */
  lemma OctetArrayAtWideReader(w: Context, r: Context, a: Scalar, b: Scalar, vs: seq<Value>, lead: Ref, o: Out,
                               rest: seq<Byte>, row: Row, s: In, heap: Heap)
    requires TaggedAndSwapped(w, r) && HeapOk(w.types, heap)
    requires ScalarOk(a) && ScalarOk(b) && !a.fixed && !b.fixed && a.width == 1 < b.width
    requires ElemsTyped(Prim(a), vs, heap) && AtLead(lead, o) && s.cursor == |o.bin| && Fresh(s)
    ensures var p := WriteArray(w, heap, Prim(a), vs, lead, o);
            && p.Ok?
            && var got := ReadArray(r, p.value.bin + rest, Prim(b), |vs|, row, s);
               got.Ok? && got.value.1.cursor == |p.value.bin| ==> |vs| == 1
    ensures |vs| == 1 && a.signed == b.signed ==>
              var p := WriteArray(w, heap, Prim(a), vs, lead, o).value;
              var got := ReadArray(r, p.bin + rest, Prim(b), |vs|, row, s);
              got.Ok? && got.value.0 == vs && got.value.1.cursor == |p.bin|
  {
    var p := WriteArray(w, heap, Prim(a), vs, lead, o).value;
    OctetArrayWritten(w, heap, a, vs, lead, o);
    var bin, register := p.bin + rest, r.flags.checkRecursivePointers;
    var got := ReadElems(r, bin, Prim(b), |vs|, register, row, 0, s);
    assert got == ReadArray(r, bin, Prim(b), |vs|, row, s);
    if got.Ok? {
      TaggedElemsTakeTwo(r, bin, b, |vs|, register, row, 0, s, got.value.1);
    }
    if |vs| == 1 && a.signed == b.signed {
      OneOctetAtWideReader(w, r, a, b, vs[0], o, p, bin, row, s);
      assert vs == [vs[0]];
    }
  }

  lemma OneOctetAtWideReader(w: Context, r: Context, a: Scalar, b: Scalar, v: Value, o: Out, p: Out, bin: Bin, row: Row,
                             s: In)
    requires TaggedAndSwapped(w, r)
    requires ScalarOk(a) && ScalarOk(b) && !a.fixed && !b.fixed && a.width == 1 < b.width && a.signed == b.signed
    requires v.Num? && InRange(a, v.n) && s.cursor == |o.bin| && Fresh(s)
    requires p == Append(o, [1] + Native(w.bigEndianHost, Pattern(a, v.n), 1)) && p.bin <= bin
    ensures Readable(r, bin, Prim(b), s)
    ensures var got := ReadElems(r, bin, Prim(b), 1, r.flags.checkRecursivePointers, row, 0, s);
            got.Ok? && got.value.0 == [v] && got.value.1.cursor == |p.bin|
  {
    var noted := NotedIn(s, r.flags.checkRecursivePointers, Spot(row, 0));
    assert p == WritePrim(w, a, v.n, o);
    PrimArrives(w, r, a, b, v.n, o, bin, noted);
    ReadPrimUnfolds(r, bin, Prim(b), Spot(row, 0), noted);
    ReadElemsUnfolds(r, bin, Prim(b), 1, r.flags.checkRecursivePointers, row, 0, s, noted);
  }

  lemma TagIsFirst(w: Context, a: Scalar, n: int, o: Out, bin: Bin)
    requires ScalarOk(a) && InRange(a, n) && Tagged(w, a) && WritePrim(w, a, n, o).bin <= bin
    ensures At(bin, |o.bin|, [a.width])
  {
    var bytes := PrimitiveBytes(w.bigEndianHost, w.flags.bigEndianFormat, Pattern(a, n), a.width);
    PrefixIsAt(o.bin, [a.width] + bytes, bin);
    AtSplits(bin, |o.bin|, [a.width], bytes);
  }

  lemma {:induction false} TaggedElemsWritten(w: Context, heap: Heap, a: Scalar, vs: seq<Value>, register: bool,
                                              lead: Ref, o: Out)
    requires Writable(w, heap, Prim(a)) && ElemsTyped(Prim(a), vs, heap) && AtLead(lead, o) && Tagged(w, a)
    ensures var p := WriteElems(w, heap, Prim(a), vs, register, lead, o);
            p.Ok? && |p.value.bin| == |o.bin| + BlockSize(1 + a.width, |vs|)
    ensures vs != [] ==> At(WriteElems(w, heap, Prim(a), vs, register, lead, o).value.bin, |o.bin|, [a.width])
    decreases vs
  {
    if vs != [] {
      var next := WritePrim(w, a, vs[0].n, Noted(o, register, lead));
      WriteElemsUnfolds(w, heap, Prim(a), vs, register, lead, o);
      TaggedElemsWritten(w, heap, a, vs[1..], register, Null, next);
      TagIsFirst(w, a, vs[0].n, Noted(o, register, lead),
                 WriteElems(w, heap, Prim(a), vs, register, lead, o).value.bin);
    }
  }

  lemma {:induction false} PrimsAsTake(r: Context, bin: Bin, width: nat, b: Scalar, n: nat, s: In)
    requires ScalarOk(b) && Fresh(s) && s.cursor <= |bin| && ReadPrimsAs(r, bin, width, b, n, s).Ok?
    ensures ReadPrimsAs(r, bin, width, b, n, s).value.1.cursor == s.cursor + BlockSize(width, n)
    decreases n
  {
    if n != 0 {
      PrimsAsTake(r, bin, width, b, n - 1, ReadPrimAs(r, bin, width, b, s).value.1);
    }
  }

  lemma WideArrayWritten(w: Context, heap: Heap, a: Scalar, vs: seq<Value>, lead: Ref, o: Out, rest: seq<Byte>)
    requires ContextOk(w) && w.flags.endiannessDifference && w.flags.sizeOfIntegersMayBeNotEqual
    requires HeapOk(w.types, heap)
    requires ScalarOk(a) && !a.fixed && 1 < a.width && ElemsTyped(Prim(a), vs, heap) && AtLead(lead, o)
    ensures var p := WriteArray(w, heap, Prim(a), vs, lead, o);
            && p.Ok? && |p.value.bin| == |o.bin| + BlockSize(1 + a.width, |vs|)
            && (vs != [] ==> At(p.value.bin + rest, |o.bin|, [a.width]))
  {
    var register := w.flags.checkRecursivePointers;
    TaggedElemsWritten(w, heap, a, vs, register, lead, o);
    var p := WriteArray(w, heap, Prim(a), vs, lead, o).value;
    assert p == WriteElems(w, heap, Prim(a), vs, register, lead, o).value;
    if vs != [] {
      AtExtends(p.bin, rest, |o.bin|, [a.width]);
    }
  }

  lemma AtExtends(bin: Bin, rest: seq<Byte>, at: nat, bytes: seq<Byte>)
    requires At(bin, at, bytes)
    ensures At(bin + rest, at, bytes)
  {
    assert (bin + rest)[at..at + |bytes|] == bin[at..at + |bytes|];
  }

  /** The reverse: wider integers, each with its tag, at a reader that expects one tag for the array. */
  lemma WideArrayAtOctetReader(w: Context, r: Context, a: Scalar, b: Scalar, vs: seq<Value>, lead: Ref, o: Out,
                               rest: seq<Byte>, row: Row, s: In, heap: Heap)
    requires TaggedAndSwapped(w, r) && HeapOk(w.types, heap)
    requires ScalarOk(a) && ScalarOk(b) && !a.fixed && !b.fixed && b.width == 1 < a.width
    requires ElemsTyped(Prim(a), vs, heap) && AtLead(lead, o) && s.cursor == |o.bin| && Fresh(s)
    ensures var p := WriteArray(w, heap, Prim(a), vs, lead, o);
            && p.Ok?
            && var got := ReadArray(r, p.value.bin + rest, Prim(b), |vs|, row, s);
               got.Ok? ==> (got.value.1.cursor == |p.value.bin| <==> |vs| == 1)
    ensures |vs| == 1 && a.signed == b.signed ==>
              var p := WriteArray(w, heap, Prim(a), vs, lead, o).value;
              ReadArray(r, p.bin + rest, Prim(b), 1, row, s) ==
              if InRange(b, vs[0].n) then Ok((vs, s.(cursor := |p.bin|))) else Err(ErrorValueOverflow)
  {
    WideArrayWritten(w, heap, a, vs, lead, o, rest);
    var bin := WriteArray(w, heap, Prim(a), vs, lead, o).value.bin + rest;
    TakenByOctets(r, bin, a.width, b, |vs|, row, s);
    WideAndNarrowBlocks(a.width, |vs|);
    if |vs| == 1 && a.signed == b.signed {
      OneWideWritten(w, heap, a, vs, lead, o, rest);
      OneWideAtOctetReader(w, r, a, b, vs[0], o, bin, row, s);
      assert vs == [vs[0]];
    }
  }

  lemma OneWideWritten(w: Context, heap: Heap, a: Scalar, vs: seq<Value>, lead: Ref, o: Out, rest: seq<Byte>)
    requires ContextOk(w) && w.flags.endiannessDifference && w.flags.sizeOfIntegersMayBeNotEqual
    requires HeapOk(w.types, heap)
    requires ScalarOk(a) && !a.fixed && 1 < a.width && ElemsTyped(Prim(a), vs, heap) && AtLead(lead, o) && |vs| == 1
    ensures var p := WriteArray(w, heap, Prim(a), vs, lead, o);
            p.Ok? && |p.value.bin| == |o.bin| + 1 + a.width && WritePrim(w, a, vs[0].n, o).bin <= p.value.bin + rest
  {
    var register := w.flags.checkRecursivePointers;
    WriteElemsUnfolds(w, heap, Prim(a), vs, register, lead, o);
    assert vs[1..] == [];
    var p := WriteArray(w, heap, Prim(a), vs, lead, o);
    assert p == WriteElems(w, heap, Prim(a), vs, register, lead, o);
    assert p == Ok(WritePrim(w, a, vs[0].n, Noted(o, register, lead)));
    assert p.value.bin == WritePrim(w, a, vs[0].n, o).bin;
  }

  lemma OneWideAtOctetReader(w: Context, r: Context, a: Scalar, b: Scalar, v: Value, o: Out, bin: Bin, row: Row, s: In)
    requires TaggedAndSwapped(w, r)
    requires ScalarOk(a) && ScalarOk(b) && !a.fixed && !b.fixed && b.width == 1 < a.width && a.signed == b.signed
    requires v.Num? && InRange(a, v.n) && s.cursor == |o.bin| && Fresh(s) && WritePrim(w, a, v.n, o).bin <= bin
    ensures s.cursor <= |bin| && Readable(r, bin, Prim(b), s)
    ensures ReadArray(r, bin, Prim(b), 1, row, s) ==
            if InRange(b, v.n) then Ok(([v], s.(cursor := |o.bin| + 1 + a.width))) else Err(ErrorValueOverflow)
  {
    var after := s.(cursor := s.cursor + 1);
    TagThenNumber(w, a, v.n, o, bin);
    PrimAsArrives(w, r, a, b, v.n, bin, after);
    ReadTaggedBlock(r, bin, Prim(b), a.width, 1, row, s);
    OnePrimAs(r, bin, a.width, b, after);
  }

  lemma TagThenNumber(w: Context, a: Scalar, n: int, o: Out, bin: Bin)
    requires ScalarOk(a) && InRange(a, n) && Tagged(w, a) && WritePrim(w, a, n, o).bin <= bin
    ensures At(bin, |o.bin|, [a.width])
    ensures At(bin, |o.bin| + 1, PrimitiveBytes(w.bigEndianHost, w.flags.bigEndianFormat, Pattern(a, n), a.width))
  {
    var bytes := PrimitiveBytes(w.bigEndianHost, w.flags.bigEndianFormat, Pattern(a, n), a.width);
    PrefixIsAt(o.bin, [a.width] + bytes, bin);
    AtSplits(bin, |o.bin|, [a.width], bytes);
  }

  lemma OnePrimAs(r: Context, bin: Bin, width: nat, b: Scalar, s: In)
    requires ScalarOk(b) && Fresh(s) && s.cursor <= |bin|
    ensures ReadPrimsAs(r, bin, width, b, 1, s) ==
            var one := ReadPrimAs(r, bin, width, b, s);
            if one.Ok? then Ok(([Num(one.value.0)], one.value.1)) else Err(one.error)
  {
    var one := ReadPrimAs(r, bin, width, b, s);
    if one.Ok? {
      assert ReadPrimsAs(r, bin, width, b, 0, one.value.1) == Ok(([], one.value.1));
      assert [Num(one.value.0)] + [] == [Num(one.value.0)];
    }
  }

  lemma TakenByOctets(r: Context, bin: Bin, width: nat, b: Scalar, n: nat, row: Row, s: In)
    requires Readable(r, bin, Prim(b), s) && Tagged(r, b) && b.width == 1 < width < 256
    requires n != 0 ==> At(bin, s.cursor, [width])
    ensures var got := ReadArray(r, bin, Prim(b), n, row, s);
            got.Ok? ==> got.value.1.cursor == s.cursor + 1 + if n == 0 then 0 else BlockSize(width, n)
  {
    var got, after := ReadArray(r, bin, Prim(b), n, row, s), s.(cursor := s.cursor + 1);
    if n != 0 {
      ReadTaggedBlock(r, bin, Prim(b), width, n, row, s);
      if got.Ok? {
        PrimsAsTake(r, bin, width, b, n, after);
      }
    }
  }

  lemma WideAndNarrowBlocks(width: nat, n: nat)
    requires 0 < width
    ensures n != 0 ==> (BlockSize(1 + width, n) == 1 + BlockSize(width, n) <==> n == 1)
  {
    BlockSizeIsProduct(1 + width, n);
    BlockSizeIsProduct(width, n);
    assert (1 + width) * n == n + width * n;
  }
}
