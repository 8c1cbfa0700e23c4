/**
  * Reading what was written, on any other host: the induction over types and over the objects met on the way.
  */
module RoundTrip {
  import opened Status
  import opened Types
  import opened Layout
  import opened Twins
  import opened Writer
  import opened Reader
  import opened Steps
  import opened Graph
  import opened Leaves
  import opened Outcomes
  import opened Exchanges

  /** A struct that travels as one block. */
  lemma StructBlockArrives(w: Context, r: Context, t: Type, v: Value, heap: Heap, bin: Bin, at: Place, s: In)
    requires w.flags == r.flags && w.interfaceVersion == r.interfaceVersion
    requires ByteOrderAccepted(w) && ByteOrderAccepted(r)
    requires Readable(r, bin, t, s) && t.Struct? && RawBlock(w, t) && HasType(t, v, heap)
    requires PlainValue(t, v) && At(bin, s.cursor, RawBytes(w.bigEndianHost, t, v))
    ensures Fits(r, t, v) && Read(r, bin, t, at, s) == Ok((v, s.(cursor := s.cursor + RawSize(t))))
  {
    TypedFits(r, t, v, heap);
    BlockBytesAgree(w, r, t, v);
    RawDecodes(r.bigEndianHost, t, v);
    assert Fetch(bin, RawSize(t), s) == Ok((RawBytes(r.bigEndianHost, t, v), s.(cursor := s.cursor + RawSize(t))));
  }

  /** A value without pointers corresponds to itself. */
  lemma PlainAlike(t: Type, v: Value, phi: Naming, heap: Heap)
    requires Plain(t) && TypeOk(t) && HasType(t, v, heap)
    ensures Alike(v, v, phi) && !Marred(v)
  {
    PlainHasNoPointers(t);
    AlikeWithoutPointers(t, v, v, phi, heap);
    UnmarredWithoutPointers(t, v, heap);
  }

  lemma {:induction false} PlainElemsAlike(e: Type, vs: seq<Value>, phi: Naming)
    requires PlainElems(e, vs)
    ensures Alikes(vs, vs, phi) && !MarredItems(vs)
  {
    if vs != [] {
      PlainAlike(e, vs[0], phi, map[]);
      PlainElemsAlike(e, vs[1..], phi);
    }
  }

  // ---------------------------------------------------------------- the induction

  /** Where addresses are registered both sides know which object, if any, begins here. */
  ghost predicate Led(x: Exchange, lead: Ref, at: Place, phi: Naming) {
    x.w.flags.checkRecursivePointers ==> LeadsAgree(lead, at, phi)
  }

  ghost predicate ValueReady(x: Exchange, a: Type, b: Type, v: Value, lead: Ref, at: Place, o: Out, s: In,
                             phi: Naming) {
    && Setup(x.w, x.r, x.heap) && Paired(x.w, x.r, a, b)
    && CanWrite(x, a, v, lead, o) && Led(x, lead, at, phi)
    && Sync(x.r, x.heap, o, s, phi, x.base)
    && Wrote(x, a, v, lead, o).Ok? && Wrote(x, a, v, lead, o).value.bin <= x.bin
  }

  ghost predicate ValueDone(x: Exchange, b: Type, v: Value, at: Place, o: Out, p: Out, s: In, phi: Naming,
                            psi: Naming) {
    ValueDoneAs(x, Got(x, b, at, s), b, v, at, o, p, s, phi, psi)
  }

  ghost predicate ValueDoneAs(x: Exchange, got: Result<(Value, In)>, b: Type, v: Value, at: Place, o: Out, p: Out,
                              s: In, phi: Naming, psi: Naming) {
    Outcome(got, Fits(x.r, b, v) && NewFit(x.r, x.heap, o, p),
            EntriesStay(x.r, b, v, at) && NewStay(x.r, x.heap, o, p, psi), x.r, x.heap, Settled(x.r, b, v, at), o, p, s,
            phi, psi, x.base)
  }

  lemma {:induction false} ValueArrives(x: Exchange, a: Type, b: Type, v: Value, lead: Ref, at: Place, o: Out, s: In,
                                        phi: Naming) returns (psi: Naming)
    requires ValueReady(x, a, b, v, lead, at, o, s, phi)
    ensures ValueDone(x, b, v, at, o, Wrote(x, a, v, lead, o).value, s, phi, psi)
    decreases Unseen(x.heap, o), a, 0
  {
    SetupReads(x, a, b, s);
    match a
    case Prim(_) =>
      PrimDone(x, a, b, v, lead, at, o, s, phi);
      psi := phi;
    case Pointer(name) => psi := PointerArrives(x, name, b, v, lead, at, o, s, phi);
    case Struct(_, _, _, _, _) => psi := StructArrives(x, a, b, v, lead, at, o, s, phi);
    case Array(e, _) =>
      var p := InlineReady(x, a, b, v, lead, at, o, s, phi);
      psi := ArrayArrives(x, e, b.elem, v.items, lead, Row(at, true), o, s, phi);
      InlineDone(x, a, b, v, lead, at, o, p, s, phi, psi);
    case Vector(e) =>
      var sized, p, t := VectorReady(x, a, b, v, lead, at, o, s, phi);
      psi := ArrayArrives(x, e, b.elem, v.items, Null, Row(at, false), sized, t, phi);
      VectorDone(x, a, b, v, lead, at, o, sized, p, s, t, phi, psi);
    case String(u) =>
      var sized, p, t := StringReady(x, a, b, v, lead, at, o, s, phi);
      psi := ArrayArrives(x, u, b.unit, v.items + [Num(0)], Null, Row(at, false), sized, t, phi);
      StringDone(x, a, b, v, lead, at, o, sized, p, s, t, phi, psi);
    case Map(e) =>
      var sized, p, t := MapReady(x, a, b, v, lead, at, o, s, phi);
      psi := ElemsArrive(x, e, b.entry, v.items, false, Null, Row(at, false), 0, sized, t, phi);
      MapDone(x, a, b, v, lead, at, o, sized, p, s, t, phi, psi);
  }

  // ---------------------------------------------------------------- scalars and structs

  lemma PrimDone(x: Exchange, a: Type, b: Type, v: Value, lead: Ref, at: Place, o: Out, s: In, phi: Naming)
    requires ValueReady(x, a, b, v, lead, at, o, s, phi) && a.Prim? && Readable(x.r, x.bin, b, s)
    ensures ValueDone(x, b, v, at, o, Wrote(x, a, v, lead, o).value, s, phi, phi)
  {
    WrotePrim(x, a, v, lead, o);
    GotPrim(x, b, at, s);
    var p := WritePrim(x.w, a.scalar, v.n, o);
    PrimArrives(x.w, x.r, a.scalar, b.scalar, v.n, o, x.bin, s);
    LeafDone(x, Got(x, b, at, s), InRange(b.scalar, v.n), b, v, v, at, o, p, s, phi);
  }

  /** A write that only appends bytes, read back as one unit. */
  lemma LeafDone(x: Exchange, got: Result<(Value, In)>, fit: bool, b: Type, v: Value, w: Value, at: Place, o: Out,
                 p: Out, s: In, phi: Naming)
    requires Sync(x.r, x.heap, o, s, phi, x.base) && p == o.(bin := p.bin) && |o.bin| <= |p.bin|
    requires Alike(w, w, phi) && !Marred(w) && Settled(x.r, b, v, at) == w
    requires (Fits(x.r, b, v) <==> fit) && EntriesStay(x.r, b, v, at)
    requires got == if fit then Ok((w, s.(cursor := |p.bin|))) else Err(ErrorValueOverflow)
    ensures ValueDoneAs(x, got, b, v, at, o, p, s, phi, phi)
  {
    LeafOutcome(got, fit, x.r, x.heap, w, o, p, s, phi, x.base);
  }

  lemma {:induction false} StructArrives(x: Exchange, a: Type, b: Type, v: Value, lead: Ref, at: Place, o: Out, s: In,
                                         phi: Naming) returns (psi: Naming)
    requires ValueReady(x, a, b, v, lead, at, o, s, phi) && Readable(x.r, x.bin, b, s) && a.Struct?
    ensures ValueDone(x, b, v, at, o, Wrote(x, a, v, lead, o).value, s, phi, psi)
    decreases Unseen(x.heap, o), a, -1
  {
    psi := phi;
    if RawBlock(x.w, a) {
      StructBlockDone(x, a, b, v, lead, at, o, s, phi);
    } else if Skipped(x.w, a) {
      SkippedDone(x, a, b, v, lead, at, o, s, phi);
    } else {
      var p := StructReady(x, a, b, v, lead, at, o, s, phi);
      psi := FieldsArrive(x, a.fields, b.fields, v.items, lead, at, 0, o, s, phi);
      StructDone(x, a, b, v, lead, at, o, p, s, phi, psi);
    }
  }

  lemma StructBlockDone(x: Exchange, a: Type, b: Type, v: Value, lead: Ref, at: Place, o: Out, s: In, phi: Naming)
    requires ValueReady(x, a, b, v, lead, at, o, s, phi) && Readable(x.r, x.bin, b, s)
    requires a.Struct? && RawBlock(x.w, a)
    ensures ValueDone(x, b, v, at, o, Wrote(x, a, v, lead, o).value, s, phi, phi)
  {
    var p := Wrote(x, a, v, lead, o).value;
    StructBlockGot(x, a, b, v, lead, at, o, p, s);
    PlainAlike(a, v, phi, x.heap);
    LeafDone(x, Got(x, b, at, s), true, b, v, v, at, o, p, s, phi);
  }

  lemma StructBlockGot(x: Exchange, a: Type, b: Type, v: Value, lead: Ref, at: Place, o: Out, p: Out, s: In)
    requires Setup(x.w, x.r, x.heap) && Paired(x.w, x.r, a, b) && CanWrite(x, a, v, lead, o) && s.cursor == |o.bin|
    requires Wrote(x, a, v, lead, o) == Ok(p) && p.bin <= x.bin && Readable(x.r, x.bin, b, s)
    requires a.Struct? && RawBlock(x.w, a)
    ensures Plain(a) && RawBlock(x.r, b) && Fits(x.r, b, v) && p == o.(bin := p.bin) && |o.bin| <= |p.bin|
    ensures Got(x, b, at, s) == Ok((v, s.(cursor := |p.bin|)))
  {
    GatesAgree(x.w, x.r, a, b);
    WroteBlock(x, a, v, lead, o);
    PrefixIsAt(o.bin, RawBytes(x.w.bigEndianHost, a, v), x.bin);
    StructBlockArrives(x.w, x.r, a, v, x.heap, x.bin, at, s);
  }

  /** What memory holds in place of a skipped struct is a plain value. */
  lemma HeldAlike(c: Context, t: Type, at: Place, phi: Naming)
    requires Plain(t) && TypeOk(t)
    ensures Alike(Held(c, t, at), Held(c, t, at), phi) && !Marred(Held(c, t, at))
  {
    DefaultHasType(t, map[]);
    PlainAlike(t, Held(c, t, at), phi, map[]);
  }

  lemma SkippedDone(x: Exchange, a: Type, b: Type, v: Value, lead: Ref, at: Place, o: Out, s: In, phi: Naming)
    requires ValueReady(x, a, b, v, lead, at, o, s, phi) && Readable(x.r, x.bin, b, s)
    requires a.Struct? && !RawBlock(x.w, a) && Skipped(x.w, a)
    ensures ValueDone(x, b, v, at, o, Wrote(x, a, v, lead, o).value, s, phi, phi)
  {
    GatesAgree(x.w, x.r, a, b);
    SkippedAgree(x.w, x.r, a, b);
    WroteSkipped(x, a, v, lead, o);
    GotSkipped(x, b, at, s);
    HeldAlike(x.r, b, at, phi);
    LeafDone(x, Got(x, b, at, s), true, b, v, Held(x.r, b, at), at, o, o, s, phi);
  }

  lemma StructReady(x: Exchange, a: Type, b: Type, v: Value, lead: Ref, at: Place, o: Out, s: In, phi: Naming)
      returns (p: Out)
    requires ValueReady(x, a, b, v, lead, at, o, s, phi) && a.Struct? && !RawBlock(x.w, a) && !Skipped(x.w, a)
    ensures v.Items? && b.Struct? && FieldsReady(x, a.fields, b.fields, v.items, lead, at, 0, o, s, phi)
    ensures WroteFields(x, a.fields, v.items, lead, o) == Ok(p)
  {
    WroteStruct(x, a, v, lead, o);
    PairedParts(x.w, x.r, a, b);
    p := Wrote(x, a, v, lead, o).value;
  }

  lemma StructDone(x: Exchange, a: Type, b: Type, v: Value, lead: Ref, at: Place, o: Out, p: Out, s: In, phi: Naming,
                   psi: Naming)
    requires ValueReady(x, a, b, v, lead, at, o, s, phi) && Readable(x.r, x.bin, b, s)
    requires a.Struct? && b.Struct? && !RawBlock(x.w, a) && !Skipped(x.w, a) && v.Items?
    requires WroteFields(x, a.fields, v.items, lead, o) == Ok(p)
    requires FieldsDone(x, b.fields, v.items, at, 0, o, p, s, phi, psi)
    ensures Wrote(x, a, v, lead, o) == Ok(p) && ValueDone(x, b, v, at, o, p, s, phi, psi)
  {
    GatesAgree(x.w, x.r, a, b);
    SkippedAgree(x.w, x.r, a, b);
    WroteStruct(x, a, v, lead, o);
    GotStruct(x, b, at, s);
    StructDoneAs(x, GotFields(x, b.fields, at, 0, s), b, v, at, o, p, s, phi, psi);
  }

  lemma StructDoneAs(x: Exchange, got: Result<(seq<Value>, In)>, b: Type, v: Value, at: Place, o: Out, p: Out, s: In,
                     phi: Naming, psi: Naming)
    requires b.Struct? && !RawBlock(x.r, b) && !Skipped(x.r, b) && v.Items?
    requires FieldsDoneAs(x, got, b.fields, v.items, at, 0, o, p, s, phi, psi)
    ensures ValueDoneAs(x, Wrapped(got), b, v, at, o, p, s, phi, psi)
  {
    ItemsOutcome(got, FitFields(x.r, b.fields, v.items), FieldEntriesStay(x.r, b.fields, v.items, at, 0), x.r, x.heap,
                 SettledFields(x.r, b.fields, v.items, at, 0), o, o, p, s, s, phi, psi, x.base);
  }

  // ---------------------------------------------------------------- pointers

  lemma {:induction false} PointerArrives(x: Exchange, name: nat, b: Type, v: Value, lead: Ref, at: Place, o: Out,
                                          s: In, phi: Naming) returns (psi: Naming)
    requires ValueReady(x, Pointer(name), b, v, lead, at, o, s, phi) && Readable(x.r, x.bin, b, s)
    ensures ValueDone(x, b, v, at, o, Wrote(x, Pointer(name), v, lead, o).value, s, phi, psi)
    decreases Unseen(x.heap, o), Pointer(name), -1
  {
    psi := phi;
    WrotePointer(x, Pointer(name), v, lead, o);
    if v.ref.Null? {
      NullDone(x, name, b, v, lead, at, o, s, phi);
    } else if v.ref in o.seen {
      BackDone(x, name, b, v, lead, at, o, s, phi);
    } else {
      var p := PointeeReady(x, name, b, v, lead, at, o, s, phi);
      var entered, t, chi := Entered(x.w, v.ref.id, o), Arrived(x.w, o, s), phi[v.ref.id := s.next];
      psi := ValueArrives(x, x.w.types[name], x.r.types[name], x.heap[v.ref.id].value, v.ref, Object(s.next), entered,
                          t, chi);
      PointeeDone(x, name, b, v, at, o, entered, p, s, t, phi, chi, psi);
    }
  }

  lemma NullDone(x: Exchange, name: nat, b: Type, v: Value, lead: Ref, at: Place, o: Out, s: In, phi: Naming)
    requires ValueReady(x, Pointer(name), b, v, lead, at, o, s, phi) && Readable(x.r, x.bin, b, s)
    requires v.Link? && v.ref.Null?
    ensures ValueDone(x, b, v, at, o, Wrote(x, Pointer(name), v, lead, o).value, s, phi, phi)
  {
    WrotePointer(x, Pointer(name), v, lead, o);
    SizeArrives(x.w, x.r, 0, o, x.bin, s);
    var p := WriteSize(x.w, 0, o).value;
    GotMarker(x, b, at, s, 0, s.(cursor := |p.bin|));
    LeafDone(x, Got(x, b, at, s), true, b, v, v, at, o, p, s, phi);
  }

  /**
    * A second pointer to an object finds what the reader has registered at the recorded offset, which it has
    * passed: the object, or an array element if the object is lost.
    */
  lemma BackDone(x: Exchange, name: nat, b: Type, v: Value, lead: Ref, at: Place, o: Out, s: In, phi: Naming)
    requires ValueReady(x, Pointer(name), b, v, lead, at, o, s, phi) && Readable(x.r, x.bin, b, s)
    requires v.Link? && v.ref.Node? && v.ref in o.seen
    ensures ValueDone(x, b, v, at, o, Wrote(x, Pointer(name), v, lead, o).value, s, phi, phi)
  {
    WrotePointer(x, Pointer(name), v, lead, o);
    PairedParts(x.w, x.r, Pointer(name), b);
    var p := WriteBack(x.w, v.ref, o).value;
    BackRead(x, b, v.ref.id, at, o, p, s, phi);
    BackOutcome(Got(x, b, at, s), x.r, x.heap, v, o, p, s, phi, x.base);
  }

  lemma BackRead(x: Exchange, b: Type, a: nat, at: Place, o: Out, p: Out, s: In, phi: Naming)
    requires Sync(x.r, x.heap, o, s, phi, x.base) && Readable(x.r, x.bin, b, s) && b.Pointer?
    requires x.w.flags == x.r.flags && PointersTravel(x.r) && p.bin <= x.bin
    requires Node(a) in o.seen && WriteBack(x.w, Node(a), o) == Ok(p)
    ensures o.seen[Node(a)] in s.places && |o.bin| <= |p.bin|
    ensures Got(x, b, at, s) == Ok((Link(s.places[o.seen[Node(a)]]), s.(cursor := |p.bin|)))
  {
    assert Placed(x.r, x.heap, o, s, phi, x.base, a);
    var offset := o.seen[Node(a)];
    SizeArrives(x.w, x.r, offset, o, x.bin, s);
    var after := s.(cursor := |p.bin|);
    assert after.places[offset := after.places[offset]] == after.places;
    GotMarker(x, b, at, s, offset, after);
  }

  ghost predicate EnteredOk(x: Exchange, a: nat, o: Out, entered: Out, s: In, t: In, phi: Naming, chi: Naming) {
    && Sync(x.r, x.heap, entered, t, chi, x.base) && Grows(phi, chi)
    && a in chi && chi[a] == s.next && t.next == s.next + 1 && t.made == s.made && t.turned == s.turned && Fresh(s)
    && (forall b :: Node(b) in entered.seen <==> Node(b) in o.seen || a == b)
    && Extends(o, entered) && entered.misled == o.misled
    && LeadsAgree(Node(a), Object(s.next), chi)
    && Unseen(x.heap, entered) < Unseen(x.heap, o)
  }

  lemma EnteredSync(x: Exchange, a: nat, o: Out, s: In, phi: Naming)
    requires Sync(x.r, x.heap, o, s, phi, x.base) && a in x.heap && x.heap[a].name in x.r.types
    requires Node(a) !in o.seen && WriteSize(x.w, 1, o).Ok?
    ensures EnteredOk(x, a, o, Entered(x.w, a, o), s, Arrived(x.w, o, s), phi, phi[a := s.next])
  {
    var marked := WriteSize(x.w, 1, o).value;
    SyncBehind(x.r, x.heap, o, s, phi, x.base, marked);
    SyncMoves(x.r, x.heap, o, s, phi, x.base, marked);
    SyncEnters(x.r, x.heap, marked, s.(cursor := |marked.bin|), phi, x.base, a);
    assert a in Unseen(x.heap, o) && a !in Unseen(x.heap, Entered(x.w, a, o));
  }

  lemma PointeeReady(x: Exchange, name: nat, b: Type, v: Value, lead: Ref, at: Place, o: Out, s: In, phi: Naming)
      returns (p: Out)
    requires ValueReady(x, Pointer(name), b, v, lead, at, o, s, phi)
    requires v.Link? && v.ref.Node? && v.ref !in o.seen
    ensures PointeeNamed(x, name, v) && b == Pointer(name) && WriteSize(x.w, 1, o).Ok?
    ensures EnteredOk(x, v.ref.id, o, Entered(x.w, v.ref.id, o), s, Arrived(x.w, o, s), phi, phi[v.ref.id := s.next])
    ensures ValueReady(x, x.w.types[name], x.r.types[name], x.heap[v.ref.id].value, v.ref, Object(s.next),
                       Entered(x.w, v.ref.id, o), Arrived(x.w, o, s), phi[v.ref.id := s.next])
    ensures Wrote(x, x.w.types[name], x.heap[v.ref.id].value, v.ref, Entered(x.w, v.ref.id, o)) == Ok(p)
    ensures Wrote(x, Pointer(name), v, lead, o) == Ok(p)
    ensures ReadSize(x.r, x.bin, s) == Ok((1, s.(cursor := |Entered(x.w, v.ref.id, o).bin|)))
    ensures PointersTravel(x.r)
  {
    WrotePointer(x, Pointer(name), v, lead, o);
    PairedPointee(x.w, x.r, name);
    EnteredSync(x, v.ref.id, o, s, phi);
    p := Wrote(x, Pointer(name), v, lead, o).value;
    SizeArrives(x.w, x.r, 1, o, x.bin, s);
  }

  ghost predicate PointeeNamed(x: Exchange, name: nat, v: Value) {
    && v.Link? && v.ref.Node?
    && name in x.w.types && name in x.r.types && v.ref.id in x.heap && x.heap[v.ref.id].name == name
  }

  lemma PointeeDone(x: Exchange, name: nat, b: Type, v: Value, at: Place, o: Out, entered: Out, p: Out, s: In, t: In,
                    phi: Naming, chi: Naming, psi: Naming)
    requires PointeeNamed(x, name, v) && v.ref !in o.seen && Extends(entered, p)
    requires Readable(x.r, x.bin, b, s) && b == Pointer(name) && PointersTravel(x.r)
    requires WriteSize(x.w, 1, o).Ok? && t == Arrived(x.w, o, s)
    requires ReadSize(x.r, x.bin, s) == Ok((1, s.(cursor := t.cursor)))
    requires EnteredOk(x, v.ref.id, o, entered, s, t, phi, chi)
    requires ValueDone(x, x.r.types[name], x.heap[v.ref.id].value, Object(s.next), entered, p, t, chi, psi)
    ensures ValueDone(x, b, v, at, o, p, s, phi, psi)
  {
    GotNew(x, b, at, s, s.(cursor := t.cursor), t);
    PointeeDoneAs(x, Got(x, x.r.types[name], Object(s.next), t), Got(x, b, at, s), name, v, at, o, entered, p, s, t,
                  phi, chi, psi);
  }

  /** The object that results is kept under its number. */
  ghost predicate ObjectMade(inner: Result<(Value, In)>, got: Result<(Value, In)>, name: nat, id: nat) {
    got == if inner.Ok?
           then Ok((Link(Node(id)), inner.value.1.(made := inner.value.1.made[id := Cell(name, inner.value.0)])))
           else Err(inner.error)
  }

  lemma PointeeDoneAs(x: Exchange, inner: Result<(Value, In)>, got: Result<(Value, In)>, name: nat, v: Value, at: Place,
                      o: Out, entered: Out, p: Out, s: In, t: In, phi: Naming, chi: Naming, psi: Naming)
    requires PointeeNamed(x, name, v) && v.ref !in o.seen && Extends(entered, p)
    requires EnteredOk(x, v.ref.id, o, entered, s, t, phi, chi) && ObjectMade(inner, got, name, s.next)
    requires ValueDoneAs(x, inner, x.r.types[name], x.heap[v.ref.id].value, Object(s.next), entered, p, t, chi, psi)
    ensures ValueDoneAs(x, got, Pointer(name), v, at, o, p, s, phi, psi)
  {
    PointeeOutcome(inner, got, x.r, x.heap, o, entered, p, s, t, v, name, phi, chi, psi, x.base);
  }

  // ---------------------------------------------------------------- fields

  ghost predicate FieldsReady(x: Exchange, ts: seq<Type>, us: seq<Type>, vs: seq<Value>, lead: Ref, whole: Place,
                              k: nat, o: Out, s: In, phi: Naming) {
    && Setup(x.w, x.r, x.heap) && PairedFields(x.w, x.r, ts, us)
    && CanWriteFields(x, ts, vs, lead, o) && Led(x, lead, Part(whole, k), phi)
    && Sync(x.r, x.heap, o, s, phi, x.base)
    && WroteFields(x, ts, vs, lead, o).Ok? && WroteFields(x, ts, vs, lead, o).value.bin <= x.bin
  }

  ghost predicate FieldsDone(x: Exchange, us: seq<Type>, vs: seq<Value>, whole: Place, k: nat, o: Out, p: Out, s: In,
                             phi: Naming, psi: Naming) {
    FieldsDoneAs(x, GotFields(x, us, whole, k, s), us, vs, whole, k, o, p, s, phi, psi)
  }

  ghost predicate FieldsDoneAs(x: Exchange, got: Result<(seq<Value>, In)>, us: seq<Type>, vs: seq<Value>, whole: Place,
                               k: nat, o: Out, p: Out, s: In, phi: Naming, psi: Naming) {
    OutcomeSeq(got, FitFields(x.r, us, vs) && NewFit(x.r, x.heap, o, p),
               FieldEntriesStay(x.r, us, vs, whole, k) && NewStay(x.r, x.heap, o, p, psi), x.r, x.heap,
               SettledFields(x.r, us, vs, whole, k), o, p, s, phi, psi, x.base)
  }

  lemma {:induction false} FieldsArrive(x: Exchange, ts: seq<Type>, us: seq<Type>, vs: seq<Value>, lead: Ref,
                                        whole: Place, k: nat, o: Out, s: In, phi: Naming) returns (psi: Naming)
    requires FieldsReady(x, ts, us, vs, lead, whole, k, o, s, phi)
    ensures FieldsDone(x, us, vs, whole, k, o, WroteFields(x, ts, vs, lead, o).value, s, phi, psi)
    decreases Unseen(x.heap, o), ts, 0
  {
    psi := phi;
    if ts == [] {
      FieldsEmpty(x, ts, us, vs, lead, whole, k, o, s, phi);
    } else {
      var p, q := FieldsHead(x, ts, us, vs, lead, whole, k, o, s, phi);
      var chi := ValueArrives(x, ts[0], us[0], vs[0], lead, Part(whole, k), o, s, phi);
      var head, rest := Got(x, us[0], Part(whole, k), s), ts[1..];
      if head.Ok? {
        FieldsTail(x, ts, us, vs, whole, k, p, head.value.1, chi);
        psi := FieldsArrive(x, rest, us[1..], vs[1..], Null, whole, k + 1, p, head.value.1, chi);
      }
      FieldsJoin(x, us, vs, whole, k, o, p, q, s, phi, chi, psi);
    }
  }

  lemma FieldsEmpty(x: Exchange, ts: seq<Type>, us: seq<Type>, vs: seq<Value>, lead: Ref, whole: Place, k: nat,
                    o: Out, s: In, phi: Naming)
    requires ts == [] && FieldsReady(x, ts, us, vs, lead, whole, k, o, s, phi)
    ensures FieldsDone(x, us, vs, whole, k, o, WroteFields(x, ts, vs, lead, o).value, s, phi, phi)
  {
    WroteNoFields(x, ts, vs, lead, o);
    GotNoFields(x, us, whole, k, s);
  }

  /** The first field is ready, and what follows it is written after it. */
  lemma FieldsHead(x: Exchange, ts: seq<Type>, us: seq<Type>, vs: seq<Value>, lead: Ref, whole: Place, k: nat,
                   o: Out, s: In, phi: Naming) returns (p: Out, q: Out)
    requires ts != [] && FieldsReady(x, ts, us, vs, lead, whole, k, o, s, phi)
    ensures us != [] && vs != [] && FieldsReadable(x.r, us) && Fresh(s) && s.cursor <= |x.bin|
    ensures ValueReady(x, ts[0], us[0], vs[0], lead, Part(whole, k), o, s, phi)
    ensures Wrote(x, ts[0], vs[0], lead, o) == Ok(p) && WroteFields(x, ts, vs, lead, o) == Ok(q)
    ensures Extends(o, p) && Extends(p, q) && q.bin <= x.bin
    ensures Unseen(x.heap, p) < Unseen(x.heap, o) || Unseen(x.heap, p) == Unseen(x.heap, o)
    ensures CanWriteFields(x, ts[1..], vs[1..], Null, p) && WroteFields(x, ts[1..], vs[1..], Null, p) == Ok(q)
    ensures Setup(x.w, x.r, x.heap) && PairedFields(x.w, x.r, ts, us)
  {
    WroteFieldsStep(x, ts, vs, lead, o);
    p, q := Wrote(x, ts[0], vs[0], lead, o).value, WroteFields(x, ts, vs, lead, o).value;
  }

  lemma FieldsTail(x: Exchange, ts: seq<Type>, us: seq<Type>, vs: seq<Value>, whole: Place, k: nat, p: Out, t: In,
                   chi: Naming)
    requires ts != [] && us != [] && vs != [] && Setup(x.w, x.r, x.heap) && PairedFields(x.w, x.r, ts, us)
    requires Sync(x.r, x.heap, p, t, chi, x.base) && CanWriteFields(x, ts[1..], vs[1..], Null, p)
    requires WroteFields(x, ts[1..], vs[1..], Null, p).Ok?
    requires WroteFields(x, ts[1..], vs[1..], Null, p).value.bin <= x.bin
    ensures FieldsReady(x, ts[1..], us[1..], vs[1..], Null, whole, k + 1, p, t, chi)
  {
  }

  lemma FieldsJoin(x: Exchange, us: seq<Type>, vs: seq<Value>, whole: Place, k: nat, o: Out, p: Out, q: Out, s: In,
                   phi: Naming, chi: Naming, psi: Naming)
    requires us != [] && vs != [] && Extends(o, p) && Extends(p, q)
    requires FieldsReadable(x.r, us) && Fresh(s) && s.cursor <= |x.bin|
    requires ValueDone(x, us[0], vs[0], Part(whole, k), o, p, s, phi, chi)
    requires var head := Got(x, us[0], Part(whole, k), s);
             head.Ok? ==> FieldsDone(x, us[1..], vs[1..], whole, k + 1, p, q, head.value.1, chi, psi)
    ensures FieldsDone(x, us, vs, whole, k, o, q, s, phi, psi)
  {
    var head := Got(x, us[0], Part(whole, k), s);
    GotFieldsStep(x, us, whole, k, s);
    var tail := if head.Ok? then GotFields(x, us[1..], whole, k + 1, head.value.1) else Ok(([], s));
    FieldsJoinAs(x, head, tail, GotFields(x, us, whole, k, s), us, vs, whole, k, o, p, q, s, phi, chi, psi);
  }

  lemma FieldsJoinAs(x: Exchange, head: Result<(Value, In)>, tail: Result<(seq<Value>, In)>,
                     got: Result<(seq<Value>, In)>, us: seq<Type>, vs: seq<Value>, whole: Place, k: nat, o: Out, p: Out,
                     q: Out, s: In, phi: Naming, chi: Naming, psi: Naming)
    requires us != [] && vs != [] && Extends(o, p) && Extends(p, q) && got == Prepend(head, tail)
    requires ValueDoneAs(x, head, us[0], vs[0], Part(whole, k), o, p, s, phi, chi)
    requires head.Ok? ==> FieldsDoneAs(x, tail, us[1..], vs[1..], whole, k + 1, p, q, head.value.1, chi, psi)
    ensures FieldsDoneAs(x, got, us, vs, whole, k, o, q, s, phi, psi)
  {
    var ws := SettledFields(x.r, us, vs, whole, k);
    assert ws[1..] == SettledFields(x.r, us[1..], vs[1..], whole, k + 1);
    JoinFields(head, tail, got, us, x.r, x.heap, vs, ws, whole, k, o, p, q, s, phi, chi, psi, x.base);
  }

  // ---------------------------------------------------------------- arrays

  ghost predicate ArrayReady(x: Exchange, e: Type, f: Type, vs: seq<Value>, lead: Ref, row: Row, o: Out, s: In,
                             phi: Naming) {
    && Setup(x.w, x.r, x.heap) && Paired(x.w, x.r, e, f) && ElemTwins(x.w.flags, e, f)
    && CanWriteElems(x, e, vs, lead, o) && Led(x, lead, Spot(row, 0), phi)
    && Sync(x.r, x.heap, o, s, phi, x.base)
    && WroteArray(x, e, vs, lead, o).Ok? && WroteArray(x, e, vs, lead, o).value.bin <= x.bin
  }

  ghost predicate ArrayRead(x: Exchange, f: Type, vs: seq<Value>, row: Row, o: Out, p: Out, s: In, phi: Naming,
                            psi: Naming) {
    ElemsDoneAs(x, GotArray(x, f, |vs|, row, s), f, vs, row, 0, o, p, s, phi, psi)
  }

  lemma {:induction false} ArrayArrives(x: Exchange, e: Type, f: Type, vs: seq<Value>, lead: Ref, row: Row, o: Out,
                                        s: In, phi: Naming) returns (psi: Naming)
    requires ArrayReady(x, e, f, vs, lead, row, o, s, phi)
    ensures ArrayRead(x, f, vs, row, o, WroteArray(x, e, vs, lead, o).value, s, phi, psi)
    decreases Unseen(x.heap, o), e, |vs| + 2
  {
    psi := phi;
    SetupReads(x, e, f, s);
    if e.Struct? && e.tags.empty {
      EmptyArrayRead(x, e, f, vs, lead, row, o, s, phi);
    } else if RawBlock(x.w, e) {
      BlockRead(x, e, f, vs, lead, row, o, s, phi);
    } else {
      ArrayIsElems(x, e, f, vs, lead, row, o, s, phi);
      psi := ElemsArrive(x, e, f, vs, x.w.flags.checkRecursivePointers, lead, row, 0, o, s, phi);
    }
  }

  lemma ArrayIsElems(x: Exchange, e: Type, f: Type, vs: seq<Value>, lead: Ref, row: Row, o: Out, s: In, phi: Naming)
    requires ArrayReady(x, e, f, vs, lead, row, o, s, phi) && Readable(x.r, x.bin, f, s)
    requires !(e.Struct? && e.tags.empty) && !RawBlock(x.w, e)
    ensures var register := x.w.flags.checkRecursivePointers;
            && ElemsReady(x, e, f, vs, register, lead, row, 0, o, s, phi)
            && WroteArray(x, e, vs, lead, o) == WroteElems(x, e, vs, register, lead, o)
            && GotArray(x, f, |vs|, row, s) == GotElems(x, f, |vs|, register, row, 0, s)
  {
    GatesAgree(x.w, x.r, e, f);
    WroteArrayElems(x, e, vs, lead, o);
    GotArrayElems(x, f, |vs|, row, s);
  }

  /** Elements of an empty type settle on themselves, there being nothing in them. */
  lemma {:induction false} EmptiesSettle(c: Context, f: Type, vs: seq<Value>, row: Row, k: nat)
    requires f.Struct? && f.fields == [] && !AnySimplyAssignable(f.tags)
    ensures SettledElems(c, f, vs, row, k) == vs
    decreases vs
  {
    if vs != [] {
      assert vs[0].Items? ==> SettledFields(c, f.fields, vs[0].items, Spot(row, k), 0) == vs[0].items;
      EmptiesSettle(c, f, vs[1..], row, k + 1);
    }
  }

  lemma {:induction false} EmptiesAlike(vs: seq<Value>, phi: Naming)
    requires forall i | 0 <= i < |vs| :: vs[i] == Items([])
    ensures Alikes(vs, vs, phi) && !MarredItems(vs)
  {
    AlikesPointwise(vs, vs, phi);
    MarredPointwise(vs);
  }

  lemma EmptyArrayRead(x: Exchange, e: Type, f: Type, vs: seq<Value>, lead: Ref, row: Row, o: Out, s: In, phi: Naming)
    requires ArrayReady(x, e, f, vs, lead, row, o, s, phi) && Readable(x.r, x.bin, f, s)
    requires e.Struct? && e.tags.empty
    ensures ArrayRead(x, f, vs, row, o, WroteArray(x, e, vs, lead, o).value, s, phi, phi)
  {
    WroteNothing(x, e, vs, lead, o);
    GotNothing(x, f, |vs|, row, s);
    assert forall i | 0 <= i < |vs| :: vs[i] == Items([]);
    assert vs == seq(|vs|, _ => Items([]));
    TypedElemsFit(x.r, f, vs, x.heap);
    EmptiesSettle(x.r, f, vs, row, 0);
    EmptiesAlike(vs, phi);
    LeafOutcomeSeq(GotArray(x, f, |vs|, row, s), true, x.r, x.heap, vs, o, o, s, phi, x.base);
  }

  /** Elements that travel as raw blocks settle on themselves. */
  lemma {:induction false} BlocksSettle(c: Context, f: Type, vs: seq<Value>, row: Row, k: nat)
    requires RawBlock(c, f)
    ensures SettledElems(c, f, vs, row, k) == vs
    decreases vs
  {
    if vs != [] {
      BlocksSettle(c, f, vs[1..], row, k + 1);
    }
  }

  lemma BlockRead(x: Exchange, e: Type, f: Type, vs: seq<Value>, lead: Ref, row: Row, o: Out, s: In, phi: Naming)
    requires ArrayReady(x, e, f, vs, lead, row, o, s, phi) && Readable(x.r, x.bin, f, s)
    requires RawBlock(x.w, e) && !(e.Struct? && e.tags.empty)
    ensures ArrayRead(x, f, vs, row, o, WroteArray(x, e, vs, lead, o).value, s, phi, phi)
  {
    WroteArrayBlock(x, e, vs, lead, o);
    var p := Append(o, BlockBytes(x.w, e, vs));
    assert WroteArray(x, e, vs, lead, o) == Ok(p);
    BlockGot(x, e, f, vs, row, o, p, s);
    BlockDone(x, e, f, vs, row, o, p, s, phi);
  }

  lemma BlockGot(x: Exchange, e: Type, f: Type, vs: seq<Value>, row: Row, o: Out, p: Out, s: In)
    requires Peers(x.w, x.r) && Paired(x.w, x.r, e, f) && ElemTwins(x.w.flags, e, f) && Readable(x.r, x.bin, f, s)
    requires RawBlock(x.w, e) && PlainElems(e, vs) && s.cursor == |o.bin|
    requires p == Append(o, BlockBytes(x.w, e, vs)) && p.bin <= x.bin
    ensures RawBlock(x.r, f) && GotArray(x, f, |vs|, row, s) == AllOrOverflow(x.r, f, vs, s.(cursor := |p.bin|))
  {
    GatesAgree(x.w, x.r, e, f);
    PrefixIsAt(o.bin, BlockBytes(x.w, e, vs), x.bin);
    ArrayBlockArrives(x.w, x.r, e, f, vs, x.bin, row, s);
  }

  lemma BlockDone(x: Exchange, e: Type, f: Type, vs: seq<Value>, row: Row, o: Out, p: Out, s: In, phi: Naming)
    requires Sync(x.r, x.heap, o, s, phi, x.base) && p == o.(bin := p.bin) && |o.bin| <= |p.bin|
    requires PlainElems(e, vs) && RawBlock(x.r, f)
    requires GotArray(x, f, |vs|, row, s) == AllOrOverflow(x.r, f, vs, s.(cursor := |p.bin|))
    ensures ArrayRead(x, f, vs, row, o, p, s, phi, phi)
  {
    PlainElemsAlike(e, vs, phi);
    BlocksSettle(x.r, f, vs, row, 0);
    LeafOutcomeSeq(GotArray(x, f, |vs|, row, s), FitElems(x.r, f, vs), x.r, x.heap, vs, o, p, s, phi, x.base);
  }

  ghost predicate ElemsReady(x: Exchange, e: Type, f: Type, vs: seq<Value>, register: bool, lead: Ref, row: Row, k: nat,
                             o: Out, s: In, phi: Naming) {
    && Setup(x.w, x.r, x.heap) && Paired(x.w, x.r, e, f)
    && CanWriteElems(x, e, vs, lead, o) && Led(x, lead, Spot(row, k), phi)
    && (register ==> x.w.flags.checkRecursivePointers)
    && Sync(x.r, x.heap, o, s, phi, x.base)
    && WroteElems(x, e, vs, register, lead, o).Ok? && WroteElems(x, e, vs, register, lead, o).value.bin <= x.bin
  }

  ghost predicate ElemsDone(x: Exchange, f: Type, vs: seq<Value>, register: bool, row: Row, k: nat, o: Out, p: Out,
                            s: In, phi: Naming, psi: Naming) {
    ElemsDoneAs(x, GotElems(x, f, |vs|, register, row, k, s), f, vs, row, k, o, p, s, phi, psi)
  }

  ghost predicate ElemsDoneAs(x: Exchange, got: Result<(seq<Value>, In)>, f: Type, vs: seq<Value>, row: Row, k: nat,
                              o: Out, p: Out, s: In, phi: Naming, psi: Naming) {
    OutcomeSeq(got, FitElems(x.r, f, vs) && NewFit(x.r, x.heap, o, p),
               ElemEntriesStay(x.r, f, vs, row, k) && NewStay(x.r, x.heap, o, p, psi), x.r, x.heap,
               SettledElems(x.r, f, vs, row, k), o, p, s, phi, psi, x.base)
  }

  lemma {:induction false} ElemsArrive(x: Exchange, e: Type, f: Type, vs: seq<Value>, register: bool, lead: Ref,
                                       row: Row, k: nat, o: Out, s: In, phi: Naming) returns (psi: Naming)
    requires ElemsReady(x, e, f, vs, register, lead, row, k, o, s, phi)
    ensures ElemsDone(x, f, vs, register, row, k, o, WroteElems(x, e, vs, register, lead, o).value, s, phi, psi)
    decreases Unseen(x.heap, o), e, |vs| + 1
  {
    psi := phi;
    SetupReads(x, e, f, s);
    if vs == [] {
      ElemsEmpty(x, e, f, vs, register, lead, row, k, o, s, phi);
    } else {
      var noted, p, q, t := ElemsHead(x, e, f, vs, register, lead, row, k, o, s, phi);
      var chi := ValueArrives(x, e, f, vs[0], lead, Spot(row, k), noted, t, phi);
      var head, rest := Got(x, f, Spot(row, k), t), vs[1..];
      if head.Ok? {
        ElemsTail(x, e, f, vs, register, row, k, p, head.value.1, chi);
        psi := ElemsArrive(x, e, f, rest, register, Null, row, k + 1, p, head.value.1, chi);
      }
      ElemsJoin(x, f, vs, register, row, k, o, noted, p, q, s, t, phi, chi, psi);
    }
  }

  lemma ElemsEmpty(x: Exchange, e: Type, f: Type, vs: seq<Value>, register: bool, lead: Ref, row: Row, k: nat,
                   o: Out, s: In, phi: Naming)
    requires vs == [] && ElemsReady(x, e, f, vs, register, lead, row, k, o, s, phi) && Readable(x.r, x.bin, f, s)
    ensures ElemsDone(x, f, vs, register, row, k, o, WroteElems(x, e, vs, register, lead, o).value, s, phi, phi)
  {
    WroteNoElems(x, e, vs, register, lead, o);
    GotNoElems(x, f, register, row, k, s);
    NothingOutcome(GotElems(x, f, |vs|, register, row, k, s), f, x.r, x.heap, vs, SettledElems(x.r, f, vs, row, k),
                   o, s, phi, x.base);
  }

  /** Both sides once the address of the first element has been registered. */
  ghost predicate ElemsEntered(x: Exchange, f: Type, vs: seq<Value>, register: bool, row: Row, k: nat, o: Out,
                               noted: Out, s: In, t: In) {
    && SameStart(o, noted, s, t)
    && var head := Got(x, f, Spot(row, k), t);
       vs != [] && GotElems(x, f, |vs|, register, row, k, s) ==
       Prepend(head, if head.Ok? then GotElems(x, f, |vs[1..]|, register, row, k + 1, head.value.1) else Ok(([], s)))
  }

  lemma ElemsHead(x: Exchange, e: Type, f: Type, vs: seq<Value>, register: bool, lead: Ref, row: Row, k: nat,
                  o: Out, s: In, phi: Naming) returns (noted: Out, p: Out, q: Out, t: In)
    requires vs != [] && ElemsReady(x, e, f, vs, register, lead, row, k, o, s, phi) && Readable(x.r, x.bin, f, s)
    ensures ElemsEntered(x, f, vs, register, row, k, o, noted, s, t)
    ensures ValueReady(x, e, f, vs[0], lead, Spot(row, k), noted, t, phi)
    ensures Wrote(x, e, vs[0], lead, noted) == Ok(p) && WroteElems(x, e, vs, register, lead, o) == Ok(q)
    ensures Extends(noted, p) && Extends(p, q) && q.bin <= x.bin
    ensures Unseen(x.heap, noted) == Unseen(x.heap, o)
    ensures Unseen(x.heap, p) < Unseen(x.heap, o) || Unseen(x.heap, p) == Unseen(x.heap, o)
    ensures CanWriteElems(x, e, vs[1..], Null, p) && WroteElems(x, e, vs[1..], register, Null, p) == Ok(q)
    ensures Setup(x.w, x.r, x.heap) && Paired(x.w, x.r, e, f) && (register ==> x.w.flags.checkRecursivePointers)
  {
    t := NotedIn(s, register, Spot(row, k));
    noted, p, q := ElemsWritten(x, e, vs, register, lead, o);
    SyncRegisters(x.r, x.heap, o, s, phi, x.base, register, lead, Spot(row, k));
    ElemsRead(x, f, vs, register, lead, row, k, o, noted, s, t);
  }

  /** The writer's side of it. */
  lemma ElemsWritten(x: Exchange, e: Type, vs: seq<Value>, register: bool, lead: Ref, o: Out)
      returns (noted: Out, p: Out, q: Out)
    requires vs != [] && CanWriteElems(x, e, vs, lead, o) && WroteElems(x, e, vs, register, lead, o).Ok?
    ensures noted == Noted(o, register, lead) && CanWrite(x, e, vs[0], lead, noted)
    ensures Wrote(x, e, vs[0], lead, noted) == Ok(p) && WroteElems(x, e, vs, register, lead, o) == Ok(q)
    ensures Extends(noted, p) && Extends(p, q)
    ensures Unseen(x.heap, noted) == Unseen(x.heap, o)
    ensures Unseen(x.heap, p) < Unseen(x.heap, o) || Unseen(x.heap, p) == Unseen(x.heap, o)
    ensures CanWriteElems(x, e, vs[1..], Null, p) && WroteElems(x, e, vs[1..], register, Null, p) == Ok(q)
  {
    noted := Noted(o, register, lead);
    WroteElemsStep(x, e, vs, register, lead, o, noted);
    p, q := Wrote(x, e, vs[0], lead, noted).value, WroteElems(x, e, vs, register, lead, o).value;
    assert Unseen(x.heap, noted) == Unseen(x.heap, o);
  }

  /** The reader's side of it. */
  lemma ElemsRead(x: Exchange, f: Type, vs: seq<Value>, register: bool, lead: Ref, row: Row, k: nat, o: Out, noted: Out,
                  s: In, t: In)
    requires vs != [] && Readable(x.r, x.bin, f, s) && AtLead(lead, o)
    requires noted == Noted(o, register, lead) && t == NotedIn(s, register, Spot(row, k))
    ensures ElemsEntered(x, f, vs, register, row, k, o, noted, s, t)
  {
    GotElemsStep(x, f, |vs|, register, row, k, s, t);
    assert |vs[1..]| == |vs| - 1;
  }

  lemma ElemsTail(x: Exchange, e: Type, f: Type, vs: seq<Value>, register: bool, row: Row, k: nat, p: Out, t: In,
                  chi: Naming)
    requires vs != [] && Setup(x.w, x.r, x.heap) && Paired(x.w, x.r, e, f)
    requires Sync(x.r, x.heap, p, t, chi, x.base) && CanWriteElems(x, e, vs[1..], Null, p)
    requires register ==> x.w.flags.checkRecursivePointers
    requires WroteElems(x, e, vs[1..], register, Null, p).Ok?
    requires WroteElems(x, e, vs[1..], register, Null, p).value.bin <= x.bin
    ensures ElemsReady(x, e, f, vs[1..], register, Null, row, k + 1, p, t, chi)
  {
  }

  lemma SettledElemsStep(c: Context, e: Type, vs: seq<Value>, row: Row, k: nat)
    requires vs != []
    ensures var ws := SettledElems(c, e, vs, row, k);
            && ws != [] && ws[0] == Settled(c, e, vs[0], Spot(row, k))
            && ws[1..] == SettledElems(c, e, vs[1..], row, k + 1)
  {
  }

  lemma ElemsJoin(x: Exchange, f: Type, vs: seq<Value>, register: bool, row: Row, k: nat, o: Out, noted: Out, p: Out,
                  q: Out, s: In, t: In, phi: Naming, chi: Naming, psi: Naming)
    requires vs != [] && Extends(noted, p) && Extends(p, q) && ElemsEntered(x, f, vs, register, row, k, o, noted, s, t)
    requires ValueDone(x, f, vs[0], Spot(row, k), noted, p, t, phi, chi)
    requires var head := Got(x, f, Spot(row, k), t);
             head.Ok? ==> ElemsDone(x, f, vs[1..], register, row, k + 1, p, q, head.value.1, chi, psi)
    ensures ElemsDone(x, f, vs, register, row, k, o, q, s, phi, psi)
  {
    var head, rest := Got(x, f, Spot(row, k), t), vs[1..];
    var tail := if head.Ok? then GotElems(x, f, |rest|, register, row, k + 1, head.value.1) else Ok(([], s));
    ElemsJoinAs(x, head, tail, GotElems(x, f, |vs|, register, row, k, s), f, vs, row, k, o, noted, p, q, s, t, phi,
                chi, psi);
  }

  lemma ElemsJoinAs(x: Exchange, head: Result<(Value, In)>, tail: Result<(seq<Value>, In)>,
                    got: Result<(seq<Value>, In)>, f: Type, vs: seq<Value>, row: Row, k: nat, o: Out, noted: Out,
                    p: Out, q: Out, s: In, t: In, phi: Naming, chi: Naming, psi: Naming)
    requires vs != [] && Extends(noted, p) && Extends(p, q) && SameStart(o, noted, s, t) && got == Prepend(head, tail)
    requires ValueDoneAs(x, head, f, vs[0], Spot(row, k), noted, p, t, phi, chi)
    requires head.Ok? ==> ElemsDoneAs(x, tail, f, vs[1..], row, k + 1, p, q, head.value.1, chi, psi)
    ensures ElemsDoneAs(x, got, f, vs, row, k, o, q, s, phi, psi)
  {
    SettledElemsStep(x.r, f, vs, row, k);
    JoinElems(head, tail, got, f, x.r, x.heap, vs, SettledElems(x.r, f, vs, row, k), row, k, o, noted, p, q, s, t, phi,
              chi, psi, x.base);
  }

  // ---------------------------------------------------------------- containers

  lemma InlineReady(x: Exchange, a: Type, b: Type, v: Value, lead: Ref, at: Place, o: Out, s: In, phi: Naming)
      returns (p: Out)
    requires ValueReady(x, a, b, v, lead, at, o, s, phi) && a.Array?
    ensures v.Items? && b.Array? && ArrayReady(x, a.elem, b.elem, v.items, lead, Row(at, true), o, s, phi)
    ensures WroteArray(x, a.elem, v.items, lead, o) == Ok(p)
  {
    WroteInlineArray(x, a, v, lead, o);
    PairedParts(x.w, x.r, a, b);
    p := Wrote(x, a, v, lead, o).value;
  }

  lemma InlineDone(x: Exchange, a: Type, b: Type, v: Value, lead: Ref, at: Place, o: Out, p: Out, s: In, phi: Naming,
                   psi: Naming)
    requires ValueReady(x, a, b, v, lead, at, o, s, phi) && Readable(x.r, x.bin, b, s) && a.Array? && b.Array?
    requires v.Items?
    requires WroteArray(x, a.elem, v.items, lead, o) == Ok(p)
    requires ArrayRead(x, b.elem, v.items, Row(at, true), o, p, s, phi, psi)
    ensures Wrote(x, a, v, lead, o) == Ok(p) && ValueDone(x, b, v, at, o, p, s, phi, psi)
  {
    WroteInlineArray(x, a, v, lead, o);
    GotCounted(x, b, |v.items|, at, s, s);
    CountedDoneAs(x, GotArray(x, b.elem, |v.items|, Row(at, true), s), b, v, at, o, o, p, s, s, phi, psi);
  }

  lemma CountedDoneAs(x: Exchange, got: Result<(seq<Value>, In)>, b: Type, v: Value, at: Place, o: Out, sized: Out,
                      p: Out, s: In, t: In, phi: Naming, psi: Naming)
    requires (b.Array? || b.Vector?) && v.Items? && SameStart(o, sized, s, t)
    requires ElemsDoneAs(x, got, b.elem, v.items, Row(at, b.Array?), 0, sized, p, t, phi, psi)
    ensures ValueDoneAs(x, Wrapped(got), b, v, at, o, p, s, phi, psi)
  {
    var row := Row(at, b.Array?);
    ItemsOutcome(got, FitElems(x.r, b.elem, v.items), ElemEntriesStay(x.r, b.elem, v.items, row, 0), x.r, x.heap,
                 SettledElems(x.r, b.elem, v.items, row, 0), o, sized, p, s, t, phi, psi, x.base);
  }

  /** Both sides have passed the number of items. */
  ghost predicate SizedSync(x: Exchange, n: nat, o: Out, sized: Out, s: In, t: In, phi: Naming) {
    && WriteSize(x.w, n, o) == Ok(sized)
    && Sync(x.r, x.heap, sized, t, phi, x.base)
    && Unseen(x.heap, sized) == Unseen(x.heap, o)
    && SameStart(o, sized, s, t)
    && ReadSize(x.r, x.bin, s) == Ok((n, t))
  }

  lemma SizeSync(x: Exchange, n: nat, o: Out, sized: Out, s: In, phi: Naming)
    requires Sync(x.r, x.heap, o, s, phi, x.base) && WriteSize(x.w, n, o) == Ok(sized)
    requires sized.bin <= x.bin && x.w.flags == x.r.flags
    ensures SizedSync(x, n, o, sized, s, s.(cursor := |sized.bin|), phi)
  {
    SyncMoves(x.r, x.heap, o, s, phi, x.base, sized);
    SizeArrives(x.w, x.r, n, o, x.bin, s);
  }

  /** What a writer and a reader have in common where a number of items has been written. */
  ghost predicate CountReady(x: Exchange, e: Type, f: Type, n: nat, o: Out, sized: Out, s: In, phi: Naming) {
    && Setup(x.w, x.r, x.heap) && Paired(x.w, x.r, e, f)
    && Sync(x.r, x.heap, o, s, phi, x.base) && WriteSize(x.w, n, o) == Ok(sized)
  }

  lemma ItemsReady(x: Exchange, e: Type, f: Type, vs: seq<Value>, n: nat, at: Place, o: Out, sized: Out, p: Out, s: In,
                   phi: Naming) returns (t: In)
    requires CountReady(x, e, f, n, o, sized, s, phi) && ElemTwins(x.w.flags, e, f)
    requires CanWriteElems(x, e, vs, Null, sized) && WroteArray(x, e, vs, Null, sized) == Ok(p) && p.bin <= x.bin
    ensures SizedSync(x, n, o, sized, s, t, phi) && ArrayReady(x, e, f, vs, Null, Row(at, false), sized, t, phi)
  {
    t := s.(cursor := |sized.bin|);
    SizeSync(x, n, o, sized, s, phi);
  }

  lemma EntriesReady(x: Exchange, e: Type, f: Type, vs: seq<Value>, n: nat, at: Place, o: Out, sized: Out, p: Out,
                     s: In, phi: Naming) returns (t: In)
    requires CountReady(x, e, f, n, o, sized, s, phi)
    requires CanWriteElems(x, e, vs, Null, sized) && WroteElems(x, e, vs, false, Null, sized) == Ok(p) && p.bin <= x.bin
    ensures SizedSync(x, n, o, sized, s, t, phi)
    ensures ElemsReady(x, e, f, vs, false, Null, Row(at, false), 0, sized, t, phi)
  {
    t := s.(cursor := |sized.bin|);
    SizeSync(x, n, o, sized, s, phi);
  }

  lemma VectorReady(x: Exchange, a: Type, b: Type, v: Value, lead: Ref, at: Place, o: Out, s: In, phi: Naming)
      returns (sized: Out, p: Out, t: In)
    requires ValueReady(x, a, b, v, lead, at, o, s, phi) && a.Vector?
    ensures v.Items? && b.Vector? && SizedSync(x, |v.items|, o, sized, s, t, phi)
    ensures ArrayReady(x, a.elem, b.elem, v.items, Null, Row(at, false), sized, t, phi)
    ensures WroteArray(x, a.elem, v.items, Null, sized) == Ok(p)
  {
    WroteVector(x, a, v, lead, o);
    PairedParts(x.w, x.r, a, b);
    sized, p := WriteSize(x.w, |v.items|, o).value, Wrote(x, a, v, lead, o).value;
    t := ItemsReady(x, a.elem, b.elem, v.items, |v.items|, at, o, sized, p, s, phi);
  }

  lemma VectorDone(x: Exchange, a: Type, b: Type, v: Value, lead: Ref, at: Place, o: Out, sized: Out, p: Out, s: In,
                   t: In, phi: Naming, psi: Naming)
    requires ValueReady(x, a, b, v, lead, at, o, s, phi) && Readable(x.r, x.bin, b, s)
    requires a.Vector? && b.Vector? && v.Items? && SizedSync(x, |v.items|, o, sized, s, t, phi)
    requires WroteArray(x, a.elem, v.items, Null, sized) == Ok(p)
    requires ArrayRead(x, b.elem, v.items, Row(at, false), sized, p, t, phi, psi)
    ensures Wrote(x, a, v, lead, o) == Ok(p) && ValueDone(x, b, v, at, o, p, s, phi, psi)
  {
    WroteVector(x, a, v, lead, o);
    GotCounted(x, b, |v.items|, at, s, t);
    CountedDoneAs(x, GotArray(x, b.elem, |v.items|, Row(at, false), t), b, v, at, o, sized, p, s, t, phi, psi);
  }

  lemma StringReady(x: Exchange, a: Type, b: Type, v: Value, lead: Ref, at: Place, o: Out, s: In, phi: Naming)
      returns (sized: Out, p: Out, t: In)
    requires ValueReady(x, a, b, v, lead, at, o, s, phi) && a.String?
    ensures v.Items? && b.String? && b.unit.Prim? && SizedSync(x, |v.items|, o, sized, s, t, phi)
    ensures ArrayReady(x, a.unit, b.unit, v.items + [Num(0)], Null, Row(at, false), sized, t, phi)
    ensures WroteArray(x, a.unit, v.items + [Num(0)], Null, sized) == Ok(p)
  {
    WroteString(x, a, v, lead, o);
    PairedParts(x.w, x.r, a, b);
    sized, p := WriteSize(x.w, |v.items|, o).value, Wrote(x, a, v, lead, o).value;
    t := ItemsReady(x, a.unit, b.unit, v.items + [Num(0)], |v.items|, at, o, sized, p, s, phi);
  }

  lemma StringDone(x: Exchange, a: Type, b: Type, v: Value, lead: Ref, at: Place, o: Out, sized: Out, p: Out, s: In,
                   t: In, phi: Naming, psi: Naming)
    requires ValueReady(x, a, b, v, lead, at, o, s, phi) && Readable(x.r, x.bin, b, s)
    requires a.String? && b.String? && b.unit.Prim? && v.Items? && SizedSync(x, |v.items|, o, sized, s, t, phi)
    requires WroteArray(x, a.unit, v.items + [Num(0)], Null, sized) == Ok(p)
    requires ArrayRead(x, b.unit, v.items + [Num(0)], Row(at, false), sized, p, t, phi, psi)
    ensures Wrote(x, a, v, lead, o) == Ok(p) && ValueDone(x, b, v, at, o, p, s, phi, psi)
  {
    WroteString(x, a, v, lead, o);
    GotString(x, b, |v.items|, at, s, t);
    StringDoneAs(x, GotArray(x, b.unit, |v.items| + 1, Row(at, false), t), Got(x, b, at, s), b, v, at, o, sized, p, s,
                 t, phi, psi);
  }

  lemma StringDoneAs(x: Exchange, units: Result<(seq<Value>, In)>, got: Result<(Value, In)>, b: Type, v: Value,
                     at: Place, o: Out, sized: Out, p: Out, s: In, t: In, phi: Naming, psi: Naming)
    requires b.String? && b.unit.Prim? && TypeOk(b) && v.Items? && SameStart(o, sized, s, t)
    requires units.Ok? ==> |units.value.0| == |v.items| + 1
    requires got == if units.Ok? then Ok((Items(units.value.0[..|v.items|]), units.value.1)) else Err(units.error)
    requires ElemsDoneAs(x, units, b.unit, v.items + [Num(0)], Row(at, false), 0, sized, p, t, phi, psi)
    ensures ValueDoneAs(x, got, b, v, at, o, p, s, phi, psi)
  {
    PrimsSettle(x.r, b.unit, v.items + [Num(0)], Row(at, false), 0);
    PrimsStay(x.r, b.unit, v.items + [Num(0)], Row(at, false), 0);
    StringOutcome(units, got, b.unit, x.r, x.heap, v.items, o, sized, p, s, t, phi, psi, x.base);
  }

  lemma {:induction false} PrimsStay(c: Context, e: Type, vs: seq<Value>, row: Row, k: nat)
    requires e.Prim?
    ensures ElemEntriesStay(c, e, vs, row, k)
    decreases vs
  {
    if vs != [] {
      PrimsStay(c, e, vs[1..], row, k + 1);
    }
  }

  lemma MapReady(x: Exchange, a: Type, b: Type, v: Value, lead: Ref, at: Place, o: Out, s: In, phi: Naming)
      returns (sized: Out, p: Out, t: In)
    requires ValueReady(x, a, b, v, lead, at, o, s, phi) && a.Map?
    ensures v.Items? && b.Map? && SizedSync(x, |v.items|, o, sized, s, t, phi)
    ensures ElemsReady(x, a.entry, b.entry, v.items, false, Null, Row(at, false), 0, sized, t, phi)
    ensures WroteElems(x, a.entry, v.items, false, Null, sized) == Ok(p)
  {
    WroteMap(x, a, v, lead, o);
    PairedParts(x.w, x.r, a, b);
    sized, p := WriteSize(x.w, |v.items|, o).value, Wrote(x, a, v, lead, o).value;
    t := EntriesReady(x, a.entry, b.entry, v.items, |v.items|, at, o, sized, p, s, phi);
  }

  lemma MapDone(x: Exchange, a: Type, b: Type, v: Value, lead: Ref, at: Place, o: Out, sized: Out, p: Out, s: In, t: In,
                phi: Naming, psi: Naming)
    requires ValueReady(x, a, b, v, lead, at, o, s, phi) && Readable(x.r, x.bin, b, s)
    requires a.Map? && b.Map? && v.Items? && SizedSync(x, |v.items|, o, sized, s, t, phi)
    requires WroteElems(x, a.entry, v.items, false, Null, sized) == Ok(p)
    requires ElemsDone(x, b.entry, v.items, false, Row(at, false), 0, sized, p, t, phi, psi)
    ensures Wrote(x, a, v, lead, o) == Ok(p) && ValueDone(x, b, v, at, o, p, s, phi, psi)
  {
    var row := Row(at, false);
    WroteMap(x, a, v, lead, o);
    GotMap(x, b, |v.items|, at, s, t);
    EntriesKeyed(x, a, b, v, row);
    MapDoneAs(x, GotElems(x, b.entry, |v.items|, false, row, 0, t), b, v, at, o, sized, p, s, t, phi, psi);
  }

  lemma EntriesKeyed(x: Exchange, a: Type, b: Type, v: Value, row: Row)
    requires a.Map? && Paired(x.w, x.r, a, b) && HasType(a, v, x.heap)
    ensures b.Map? && v.Items? && Keyed(SettledElems(x.r, b.entry, v.items, row, 0))
    ensures NoPointers(b.entry) ==> AllInside(SettledElems(x.r, b.entry, v.items, row, 0))
  {
    PairedParts(x.w, x.r, a, b);
    assert Items(v.items) == v;
    SettledIsKeyed(x.r, a.entry, b.entry, v.items, row, x.heap);
    if NoPointers(b.entry) {
      PlainEntriesInside(x, a.entry, b.entry, v.items, row);
    }
  }

  ghost predicate AllInside(vs: seq<Value>) {
    forall i | 0 <= i < |vs| :: Inside(vs[i], {})
  }

  lemma MapDoneAs(x: Exchange, entries: Result<(seq<Value>, In)>, b: Type, v: Value, at: Place, o: Out, sized: Out,
                  p: Out, s: In, t: In, phi: Naming, psi: Naming)
    requires b.Map? && v.Items? && SameStart(o, sized, s, t)
    requires Keyed(SettledElems(x.r, b.entry, v.items, Row(at, false), 0))
    requires NoPointers(b.entry) ==> AllInside(SettledElems(x.r, b.entry, v.items, Row(at, false), 0))
    requires ElemsDoneAs(x, entries, b.entry, v.items, Row(at, false), 0, sized, p, t, phi, psi)
    ensures ValueDoneAs(x, AllInserted(entries, [], []), b, v, at, o, p, s, phi, psi)
  {
    var ws := SettledElems(x.r, b.entry, v.items, Row(at, false), 0);
    MapOutcome(entries, FitElems(x.r, b.entry, v.items), ElemEntriesStay(x.r, b.entry, v.items, Row(at, false), 0),
               NoPointers(b.entry) || DistinctKeys(ws), x.r, x.heap, ws, o, sized, p, s, t, phi, psi, x.base);
  }

  /** Entries without pointers settle on values without addresses. */
  lemma PlainEntriesInside(x: Exchange, e: Type, f: Type, vs: seq<Value>, row: Row)
    requires Paired(x.w, x.r, e, f) && NoPointers(f) && ElemsTyped(e, vs, x.heap)
    ensures forall i | 0 <= i < |vs| :: Inside(SettledElems(x.r, f, vs, row, 0)[i], {})
  {
    PointersAgree(x.w.flags, e, f);
    forall i | 0 <= i < |vs| ensures Inside(SettledElems(x.r, f, vs, row, 0)[i], {}) {
      NoPointersInside(e, vs[i], x.heap);
      SettledInside(x.r, f, vs[i], Spot(row, i), {});
      SettledElemsAt(x.r, f, vs, row, 0, i);
    }
  }
}
