/** The round trip of whole bodies: what is rebuilt is isomorphic to what the written value reaches. */
module Isomorphism {
  import opened Status
  import opened Bytes
  import opened Types
  import opened Twins
  import opened Writer
  import opened Reader
  import opened Steps
  import opened Graph
  import opened Offsets
  import opened Outcomes
  import opened Exchanges
  import opened RoundTrip

  // ---------------------------------------------------------------- reachability

  /** A set of objects that no pointer leaves. */
  ghost predicate Closed(heap: Heap, within: set<nat>) {
    forall a | a in heap && a in within :: Inside(heap[a].value, within)
  }

  /** The objects in every closed set that holds the pointers of `v`. */
  ghost function Reach(heap: Heap, v: Value): set<nat> {
    set a | a in heap && ReachedFrom(heap, v, a)
  }

  ghost predicate ReachedFrom(heap: Heap, v: Value, a: nat) {
    forall within: set<nat> | Closed(heap, within) && Inside(v, within) :: a in within
  }

  lemma {:induction false} TypedIsInside(t: Type, v: Value, heap: Heap)
    requires HasType(t, v, heap)
    ensures Inside(v, heap.Keys)
  {
    if v.Items? {
      forall i | 0 <= i < |v.items| ensures Inside(v.items[i], heap.Keys) {
        match t
        case Array(e, _) => TypedIsInside(e, v.items[i], heap);
        case Vector(e) => TypedIsInside(e, v.items[i], heap);
        case String(u) => TypedIsInside(u, v.items[i], heap);
        case Map(e) => TypedIsInside(e, v.items[i], heap);
        case Struct(_, _, _, fields, _) => TypedIsInside(fields[i], v.items[i], heap);
      }
    }
  }

  // ---------------------------------------------------------------- the writer records nothing else

  /** The objects the pointers map of `o` lists. */
  ghost predicate SeenWithin(o: Out, within: set<nat>) {
    forall a | Node(a) in o.seen :: a in within
  }

  /** Writing never leaves a closed set. */
  lemma {:induction false} WriteStaysInside(c: Context, heap: Heap, t: Type, v: Value, lead: Ref, o: Out,
                                            within: set<nat>)
    requires Writable(c, heap, t) && HasType(t, v, heap) && AtLead(lead, o) && Write(c, heap, t, v, lead, o).Ok?
    requires Closed(heap, within) && Inside(v, within) && SeenWithin(o, within)
    ensures SeenWithin(Write(c, heap, t, v, lead, o).value, within)
    decreases Unseen(heap, o), t, 0
  {
    match t
    case Prim(_) =>
    case Pointer(name) =>
      if v.ref.Node? && v.ref !in o.seen {
        var entered := Entered(c, v.ref.id, o);
        assert v.ref.id in Unseen(heap, o) && v.ref.id !in Unseen(heap, entered);
        WriteStaysInside(c, heap, c.types[name], heap[v.ref.id].value, v.ref, entered, within);
      }
    case Struct(_, _, _, fields, _) =>
      if !RawBlock(c, t) && !Skipped(c, t) {
        FieldsStayInside(c, heap, fields, v.items, lead, o, within);
      }
    case Array(e, _) => ArrayStaysInside(c, heap, e, v.items, lead, o, within);
    case Vector(e) => ArrayStaysInside(c, heap, e, v.items, Null, WriteSize(c, |v.items|, o).value, within);
    case String(u) => ArrayStaysInside(c, heap, u, v.items + [Num(0)], Null, WriteSize(c, |v.items|, o).value, within);
    case Map(e) => ElemsStayInside(c, heap, e, v.items, false, Null, WriteSize(c, |v.items|, o).value, within);
  }

  lemma {:induction false} FieldsStayInside(c: Context, heap: Heap, ts: seq<Type>, vs: seq<Value>, lead: Ref, o: Out,
                                            within: set<nat>)
    requires FieldsWritable(c, heap, ts, vs) && AtLead(lead, o) && WriteFields(c, heap, ts, vs, lead, o).Ok?
    requires Closed(heap, within) && Inside(Items(vs), within) && SeenWithin(o, within)
    ensures SeenWithin(WriteFields(c, heap, ts, vs, lead, o).value, within)
    decreases Unseen(heap, o), ts, 0
  {
    if ts != [] {
      assert Inside(vs[0], within) && Inside(Items(vs[1..]), within);
      WriteStaysInside(c, heap, ts[0], vs[0], lead, o, within);
      FieldsStayInside(c, heap, ts[1..], vs[1..], Null, Write(c, heap, ts[0], vs[0], lead, o).value, within);
    }
  }

  lemma {:induction false} ArrayStaysInside(c: Context, heap: Heap, e: Type, vs: seq<Value>, lead: Ref, o: Out,
                                            within: set<nat>)
    requires Writable(c, heap, e) && ElemsTyped(e, vs, heap) && AtLead(lead, o)
    requires WriteArray(c, heap, e, vs, lead, o).Ok?
    requires Closed(heap, within) && Inside(Items(vs), within) && SeenWithin(o, within)
    ensures SeenWithin(WriteArray(c, heap, e, vs, lead, o).value, within)
    decreases Unseen(heap, o), e, |vs| + 2
  {
    if !(e.Struct? && e.tags.empty) && !RawBlock(c, e) {
      ElemsStayInside(c, heap, e, vs, c.flags.checkRecursivePointers, lead, o, within);
    }
  }

  lemma {:induction false} ElemsStayInside(c: Context, heap: Heap, e: Type, vs: seq<Value>, register: bool, lead: Ref,
                                           o: Out, within: set<nat>)
    requires Writable(c, heap, e) && ElemsTyped(e, vs, heap) && AtLead(lead, o)
    requires WriteElems(c, heap, e, vs, register, lead, o).Ok?
    requires Closed(heap, within) && Inside(Items(vs), within) && SeenWithin(o, within)
    ensures SeenWithin(WriteElems(c, heap, e, vs, register, lead, o).value, within)
    decreases Unseen(heap, o), e, |vs| + 1
  {
    if vs != [] {
      var noted := Noted(o, register, lead);
      assert Unseen(heap, noted) == Unseen(heap, o);
      assert Inside(vs[0], within) && Inside(Items(vs[1..]), within);
      WriteStaysInside(c, heap, e, vs[0], lead, noted, within);
      ElemsStayInside(c, heap, e, vs[1..], register, Null, Write(c, heap, e, vs[0], lead, noted).value, within);
    }
  }

  // ---------------------------------------------------------------- the writer forgets nothing

  ghost function Recordeds(heap: Heap, o: Out): set<nat> {
    set a | a in heap && Node(a) in o.seen
  }

  /** The pointers of every object recorded between `o` and `p` lie among those recorded. */
  ghost predicate Covers(heap: Heap, o: Out, p: Out) {
    forall a | a in heap && Node(a) in p.seen && Node(a) !in o.seen :: Inside(heap[a].value, Recordeds(heap, p))
  }

  lemma CoversTransitive(heap: Heap, o: Out, p: Out, q: Out)
    requires Extends(p, q) && Covers(heap, o, p) && Covers(heap, p, q)
    ensures Covers(heap, o, q)
  {
    forall a | a in heap && Node(a) in q.seen && Node(a) !in o.seen ensures Inside(heap[a].value, Recordeds(heap, q)) {
      if Node(a) in p.seen {
        InsideGrows(heap[a].value, Recordeds(heap, p), Recordeds(heap, q));
      }
    }
  }

  lemma {:induction false} WriteCovers(c: Context, heap: Heap, t: Type, v: Value, lead: Ref, o: Out)
    requires Writable(c, heap, t) && HasType(t, v, heap) && AtLead(lead, o) && Write(c, heap, t, v, lead, o).Ok?
    ensures var p := Write(c, heap, t, v, lead, o).value;
            Inside(v, Recordeds(heap, p)) && Covers(heap, o, p)
    decreases Unseen(heap, o), t, 0
  {
    match t
    case Prim(_) =>
    case Pointer(name) => PointerCovers(c, heap, name, v, lead, o);
    case Struct(_, _, _, fields, _) =>
      if RawBlock(c, t) || Skipped(c, t) {
        PlainInside(t, v, heap, Recordeds(heap, Write(c, heap, t, v, lead, o).value));
      } else {
        FieldsCover(c, heap, fields, v.items, lead, o);
      }
    case Array(e, _) => ArrayCovers(c, heap, e, v.items, lead, o);
    case Vector(e) => ArrayCovers(c, heap, e, v.items, Null, WriteSize(c, |v.items|, o).value);
    case String(u) =>
      ArrayCovers(c, heap, u, v.items + [Num(0)], Null, WriteSize(c, |v.items|, o).value);
      PrefixInside(v.items, [Num(0)], Recordeds(heap, Write(c, heap, t, v, lead, o).value));
    case Map(e) => ElemsCover(c, heap, e, v.items, false, Null, WriteSize(c, |v.items|, o).value);
  }

  lemma PrefixInside(vs: seq<Value>, ws: seq<Value>, within: set<nat>)
    requires Inside(Items(vs + ws), within)
    ensures Inside(Items(vs), within)
  {
    assert forall i | 0 <= i < |vs| :: (vs + ws)[i] == vs[i];
  }

  lemma {:induction false} PointerCovers(c: Context, heap: Heap, name: nat, v: Value, lead: Ref, o: Out)
    requires Writable(c, heap, Pointer(name)) && HasType(Pointer(name), v, heap) && AtLead(lead, o)
    requires Write(c, heap, Pointer(name), v, lead, o).Ok?
    ensures var p := Write(c, heap, Pointer(name), v, lead, o).value;
            Inside(v, Recordeds(heap, p)) && Covers(heap, o, p)
    decreases Unseen(heap, o), Pointer(name), -1
  {
    if v.ref.Node? && v.ref !in o.seen {
      var entered := Entered(c, v.ref.id, o);
      assert v.ref.id in Unseen(heap, o) && v.ref.id !in Unseen(heap, entered);
      WriteCovers(c, heap, c.types[name], heap[v.ref.id].value, v.ref, entered);
    }
  }

  lemma {:induction false} FieldsCover(c: Context, heap: Heap, ts: seq<Type>, vs: seq<Value>, lead: Ref, o: Out)
    requires FieldsWritable(c, heap, ts, vs) && AtLead(lead, o) && WriteFields(c, heap, ts, vs, lead, o).Ok?
    ensures var p := WriteFields(c, heap, ts, vs, lead, o).value;
            Inside(Items(vs), Recordeds(heap, p)) && Covers(heap, o, p)
    decreases Unseen(heap, o), ts, 0
  {
    if ts != [] {
      var next, p := Write(c, heap, ts[0], vs[0], lead, o).value, WriteFields(c, heap, ts, vs, lead, o).value;
      WriteCovers(c, heap, ts[0], vs[0], lead, o);
      FieldsCover(c, heap, ts[1..], vs[1..], Null, next);
      HeadCovers(heap, vs, o, next, p);
    }
  }

  lemma HeadCovers(heap: Heap, vs: seq<Value>, o: Out, next: Out, p: Out)
    requires vs != [] && Extends(next, p) && Covers(heap, o, next) && Covers(heap, next, p)
    requires Inside(vs[0], Recordeds(heap, next)) && Inside(Items(vs[1..]), Recordeds(heap, p))
    ensures Inside(Items(vs), Recordeds(heap, p)) && Covers(heap, o, p)
  {
    CoversTransitive(heap, o, next, p);
    InsideGrows(vs[0], Recordeds(heap, next), Recordeds(heap, p));
    ItemsInside(vs[0], vs[1..], Recordeds(heap, p));
    assert [vs[0]] + vs[1..] == vs;
  }

  lemma {:induction false} ArrayCovers(c: Context, heap: Heap, e: Type, vs: seq<Value>, lead: Ref, o: Out)
    requires Writable(c, heap, e) && ElemsTyped(e, vs, heap) && AtLead(lead, o)
    requires WriteArray(c, heap, e, vs, lead, o).Ok?
    ensures var p := WriteArray(c, heap, e, vs, lead, o).value;
            Inside(Items(vs), Recordeds(heap, p)) && Covers(heap, o, p)
    decreases Unseen(heap, o), e, |vs| + 2
  {
    if e.Struct? && e.tags.empty {
    } else if RawBlock(c, e) {
      forall i | 0 <= i < |vs| ensures Inside(vs[i], Recordeds(heap, WriteArray(c, heap, e, vs, lead, o).value)) {
        PlainInside(e, vs[i], heap, Recordeds(heap, WriteArray(c, heap, e, vs, lead, o).value));
      }
    } else {
      ElemsCover(c, heap, e, vs, c.flags.checkRecursivePointers, lead, o);
    }
  }

  lemma {:induction false} ElemsCover(c: Context, heap: Heap, e: Type, vs: seq<Value>, register: bool, lead: Ref,
                                      o: Out)
    requires Writable(c, heap, e) && ElemsTyped(e, vs, heap) && AtLead(lead, o)
    requires WriteElems(c, heap, e, vs, register, lead, o).Ok?
    ensures var p := WriteElems(c, heap, e, vs, register, lead, o).value;
            Inside(Items(vs), Recordeds(heap, p)) && Covers(heap, o, p)
    decreases Unseen(heap, o), e, |vs| + 1
  {
    if vs != [] {
      var noted := Noted(o, register, lead);
      assert Unseen(heap, noted) == Unseen(heap, o);
      var next := Write(c, heap, e, vs[0], lead, noted).value;
      var p := WriteElems(c, heap, e, vs, register, lead, o).value;
      WriteCovers(c, heap, e, vs[0], lead, noted);
      assert Covers(heap, o, next);
      ElemsCover(c, heap, e, vs[1..], register, Null, next);
      HeadCovers(heap, vs, o, next, p);
    }
  }

  /** A body of its own, written behind `before`. */
  ghost predicate CanSend(w: Context, heap: Heap, t: Type, v: Value) {
    Writable(w, heap, t) && HasType(t, v, heap)
  }

  function Body(w: Context, heap: Heap, t: Type, v: Value, before: seq<Byte>): Result<Out>
    requires CanSend(w, heap, t, v)
  {
    Write(w, heap, t, v, Null, Begun(before))
  }

  /** A successful write records the objects its value reaches, no more and no fewer. */
  lemma WriteRecordsReach(w: Context, heap: Heap, t: Type, v: Value, before: seq<Byte>)
    requires CanSend(w, heap, t, v) && Body(w, heap, t, v, before).Ok?
    ensures forall a :: Node(a) in Body(w, heap, t, v, before).value.seen <==> a in Reach(heap, v)
  {
    var o, p := Begun(before), Body(w, heap, t, v, before).value;
    WriteCovers(w, heap, t, v, Null, o);
    assert Closed(heap, Recordeds(heap, p));
    forall a | a in heap ensures Inside(heap[a].value, heap.Keys) {
      TypedIsInside(w.types[heap[a].name], heap[a].value, heap);
    }
    TypedIsInside(t, v, heap);
    WriteStaysInside(w, heap, t, v, Null, o, heap.Keys);
    forall a | Node(a) in p.seen ensures a in Reach(heap, v) {
      forall within: set<nat> | Closed(heap, within) && Inside(v, within) ensures a in within {
        WriteStaysInside(w, heap, t, v, Null, o, within);
      }
    }
  }

  /** The offsets a body records: behind its beginning, no marker among them, and no two alike. */
  lemma BodyOffsets(w: Context, heap: Heap, t: Type, v: Value, before: seq<Byte>)
    requires CanSend(w, heap, t, v) && Body(w, heap, t, v, before).Ok?
    ensures var p := Body(w, heap, t, v, before).value;
            && (forall a | Node(a) in p.seen :: 1 < p.seen[Node(a)] <= |p.bin| && |before| < p.seen[Node(a)])
            && (forall a, b | Node(a) in p.seen && Node(b) in p.seen && p.seen[Node(a)] == p.seen[Node(b)] :: a == b)
  {
    WriteKeeps(w, heap, t, v, Null, Begun(before));
  }

  // ---------------------------------------------------------------- the theorem

  /**
    * `phi` is a bijection from the objects `v` reaches to the ids made since `base`; it commutes with the
    * type and with every field of every object, as they settle in their places.
    */
  ghost predicate Isomorphic(r: Context, u: Type, at: Place, heap: Heap, v: Value, made: Heap, x: Value, phi: Naming,
                             base: nat, end: nat) {
    && phi.Keys == Reach(heap, v)
    && Injective(phi)
    && (forall a | a in phi :: base <= phi[a] < end)
    && (forall id | base <= id < end :: id in made && Hit(phi, id))
    && Same(Settled(r, u, v, at), x, phi)
    && (forall a | a in phi :: Carries(r, heap, made, phi, a))
  }

  ghost predicate Carries(r: Context, heap: Heap, made: Heap, phi: Naming, a: nat)
    requires a in phi
  {
    && a in heap && heap[a].name in r.types && phi[a] in made
    && made[phi[a]].name == heap[a].name
    && Same(Settled(r, r.types[heap[a].name], heap[a].value, Object(phi[a])), made[phi[a]].value, phi)
  }

  /** The reader's types can hold all of `v` that travels, and of every object it reaches. */
  ghost predicate AllFit(r: Context, u: Type, heap: Heap, v: Value) {
    && Fits(r, u, v)
    && forall a | a in Reach(heap, v) :: heap[a].name in r.types && Fits(r, r.types[heap[a].name], heap[a].value)
  }

  /** A body that a peer writes behind `before`. */
  ghost predicate Sent(w: Context, r: Context, heap: Heap, t: Type, u: Type, v: Value, before: seq<Byte>) {
    && Setup(w, r, heap) && Paired(w, r, t, u) && CanSend(w, heap, t, v)
    && Body(w, heap, t, v, before).Ok?
  }

  /** A reader at its beginning. */
  ghost predicate BodyReady(w: Context, r: Context, heap: Heap, t: Type, u: Type, v: Value, before: seq<Byte>, s: In) {
    Sent(w, r, heap, t, u, v, before) && s.cursor == |before| && Fresh(s)
  }

  /**
    * Somewhere in the body stands a reference back to an object whose offset has been registered again, for an
    * array element, since the object was written.
    */
  predicate Misleads(w: Context, heap: Heap, t: Type, v: Value, before: seq<Byte>)
    requires CanSend(w, heap, t, v)
  {
    Body(w, heap, t, v, before).Ok? && Body(w, heap, t, v, before).value.misled
  }

  function Addresses(o: Out): set<nat> {
    set ref | ref in o.seen && ref.Node? :: ref.id
  }

  /** How many objects are recorded at smaller offsets than that of `a`. */
  function Rank(o: Out, a: nat): nat {
    if Node(a) in o.seen then |Earlier(o, o.seen[Node(a)])| else 0
  }

  function Earlier(o: Out, offset: nat): set<nat> {
    set ref | ref in o.seen && ref.Node? && o.seen[ref] < offset :: ref.id
  }

  /** Objects numbered from `base` on in the order of their offsets. */
  function ByOffset(o: Out, base: nat): Naming {
    map a | a in Addresses(o) :: base + Rank(o, a)
  }

  /** How a reader whose next object is number `base` will number the objects of a body. */
  function BodyNaming(w: Context, heap: Heap, t: Type, v: Value, before: seq<Byte>, base: nat): Naming
    requires CanSend(w, heap, t, v)
  {
    if Body(w, heap, t, v, before).Ok? then ByOffset(Body(w, heap, t, v, before).value, base) else map[]
  }

  /** Where every pointee type puts an octet before anything it registers, no body misleads. */
  lemma OpenPointeesNeverMislead(w: Context, heap: Heap, t: Type, v: Value, before: seq<Byte>)
    requires CanSend(w, heap, t, v) && PointeesOpen(w)
    ensures !Misleads(w, heap, t, v, before)
  {
    if Body(w, heap, t, v, before).Ok? {
      WriteHarmsNothing(w, heap, t, v, Null, Begun(before));
    }
  }

  ghost predicate Injective(phi: Naming) {
    forall a, b | a in phi && b in phi && phi[a] == phi[b] :: a == b
  }

  lemma SyncIsInjective(r: Context, heap: Heap, o: Out, s: In, phi: Naming, base: nat)
    requires Sync(r, heap, o, s, phi, base)
    ensures Injective(phi)
  {
    OrderedIsInjective(o, phi);
  }

  lemma OrderedIsInjective(o: Out, phi: Naming)
    requires DistinctOffsets(o) && (forall a | a in phi :: Node(a) in o.seen) && Ordered(o, phi)
    ensures Injective(phi)
  {
    forall a, b | a in phi && b in phi && phi[a] == phi[b] ensures a == b {
      assert o.seen[Node(a)] == o.seen[Node(b)] ==> a == b;
    }
  }

  function Below(phi: Naming, n: nat): set<nat> {
    set a | a in phi && phi[a] < n
  }

  /** Of the numbers in use exactly `n - base` are below `n`. */
  lemma {:induction false} CountBelow(phi: Naming, base: nat, n: nat)
    requires base <= n && forall a | a in phi :: base <= phi[a]
    requires Injective(phi)
    requires forall id | base <= id < n :: Hit(phi, id)
    ensures |Below(phi, n)| == n - base
    decreases n
  {
    if n == base {
      assert Below(phi, n) == {};
    } else {
      CountBelow(phi, base, n - 1);
      assert Hit(phi, n - 1);
      var last :| last in phi && phi[last] == n - 1;
      assert Below(phi, n) == Below(phi, n - 1) + {last};
    }
  }

  /** `phi` gives the recorded objects numbers without gaps from `base` on, in the order of their offsets. */
  ghost predicate Numbers(o: Out, phi: Naming, base: nat, next: nat) {
    && (forall a :: Node(a) in o.seen <==> a in phi)
    && DistinctOffsets(o) && Ordered(o, phi)
    && (forall a | a in phi :: base <= phi[a] < next)
    && (forall id | base <= id < next :: Hit(phi, id))
  }

  lemma EarlierIsBelow(o: Out, phi: Naming, base: nat, next: nat, a: nat)
    requires Numbers(o, phi, base, next) && a in phi
    ensures Below(phi, phi[a]) == Earlier(o, o.seen[Node(a)])
  {
    forall b | b in phi ensures phi[b] < phi[a] <==> b in Earlier(o, o.seen[Node(a)]) {
      assert o.seen[Node(b)] == o.seen[Node(a)] ==> b == a;
    }
    forall b | b in Earlier(o, o.seen[Node(a)]) ensures b in phi {
      assert Node(b) in o.seen;
    }
  }

  /** Such numbers are those that the offsets give. */
  lemma NumbersAreByOffset(o: Out, phi: Naming, base: nat, next: nat)
    requires Numbers(o, phi, base, next)
    ensures phi == ByOffset(o, base)
  {
    AddressesAreNumbered(o, phi);
    forall a | a in phi ensures phi[a] == base + Rank(o, a) {
      NumberIsRank(o, phi, base, next, a);
    }
    RanksMakeNaming(o, phi, base);
  }

  lemma RanksMakeNaming(o: Out, phi: Naming, base: nat)
    requires Addresses(o) == phi.Keys && forall a | a in phi :: phi[a] == base + Rank(o, a)
    ensures phi == ByOffset(o, base)
  {
  }

  lemma AddressesAreNumbered(o: Out, phi: Naming)
    requires forall a :: Node(a) in o.seen <==> a in phi
    ensures Addresses(o) == phi.Keys
  {
    forall a | a in phi ensures a in Addresses(o) {
      assert Node(a) in o.seen;
    }
    forall a | a in Addresses(o) ensures a in phi {
      assert Node(a) in o.seen;
    }
  }

  lemma NumberIsRank(o: Out, phi: Naming, base: nat, next: nat, a: nat)
    requires Numbers(o, phi, base, next) && a in phi
    ensures phi[a] == base + Rank(o, a)
  {
    OrderedIsInjective(o, phi);
    EarlierIsBelow(o, phi, base, next, a);
    CountBelow(phi, base, phi[a]);
  }

  lemma NamingIsByOffset(r: Context, heap: Heap, o: Out, s: In, phi: Naming, base: nat)
    requires Sync(r, heap, o, s, phi, base)
    ensures phi == ByOffset(o, base)
  {
    forall a | a in phi ensures base <= phi[a] < s.next {
      assert Placed(r, heap, o, s, phi, base, a);
    }
    NumbersAreByOffset(o, phi, base, s.next);
  }

  /** No entry that holds pointers is turned away, in the value or in an object it reaches. */
  ghost predicate AllStay(r: Context, u: Type, at: Place, heap: Heap, v: Value, phi: Naming) {
    && EntriesStay(r, u, v, at)
    && forall a | a in phi && a in heap && heap[a].name in r.types ::
         EntriesStay(r, r.types[heap[a].name], heap[a].value, Object(phi[a]))
  }

  /** What one pass of the induction gives. */
  ghost predicate PassDone(r: Context, heap: Heap, u: Type, v: Value, got: Result<(Value, In)>, at: Place, o: Out,
                             p: Out, s: In, phi: Naming) {
    Outcome(got, Fits(r, u, v) && NewFit(r, heap, o, p), EntriesStay(r, u, v, at) && NewStay(r, heap, o, p, phi), r,
            heap, Settled(r, u, v, at), o, p, s, map[], phi, s.next)
  }

  /** Every number given since `s` has its object. */
  ghost predicate AllMade(s: In, t: In) {
    forall id | s.next <= id < t.next :: id in t.made
  }

  /** The writer's map was empty at first, and lists what `v` reaches in the end. */
  ghost predicate RecordsReach(heap: Heap, v: Value, o: Out, p: Out) {
    !o.misled && o.seen == map[] && forall a :: Node(a) in p.seen <==> a in Reach(heap, v)
  }

  /** A pass from the writer's empty pointers map to the reader's end. */
  ghost predicate PassEnded(r: Context, heap: Heap, u: Type, v: Value, got: Result<(Value, In)>, at: Place, o: Out,
                            p: Out, s: In, phi: Naming) {
    && PassDone(r, heap, u, v, got, at, o, p, s, phi) && RecordsReach(heap, v, o, p)
    && (got.Ok? ==> AllMade(s, got.value.1))
  }

  lemma BodyRecordsReach(w: Context, heap: Heap, t: Type, v: Value, before: seq<Byte>)
    requires CanSend(w, heap, t, v) && Body(w, heap, t, v, before).Ok?
    ensures RecordsReach(heap, v, Begun(before), Body(w, heap, t, v, before).value)
  {
    WriteRecordsReach(w, heap, t, v, before);
  }

  lemma ReadMakesAll(r: Context, bin: Bin, u: Type, at: Place, s: In)
    requires Readable(r, bin, u, s)
    ensures var got := Read(r, bin, u, at, s); got.Ok? ==> AllMade(s, got.value.1)
  {
  }

  /** Where no addresses are registered a body may be read anywhere. */
  predicate MayStand(c: Context, at: Place) {
    c.flags.checkRecursivePointers ==> !Lead(at).Node?
  }

  lemma PassArrives(w: Context, r: Context, heap: Heap, t: Type, u: Type, v: Value, before: seq<Byte>, rest: seq<Byte>,
                    at: Place, s: In)
    requires BodyReady(w, r, heap, t, u, v, before, s) && MayStand(w, at)
    ensures var p := Body(w, heap, t, v, before).value;
            && Readable(r, p.bin + rest, u, s)
            && PassEnded(r, heap, u, v, Read(r, p.bin + rest, u, at, s), at, Begun(before), p, s,
                         BodyNaming(w, heap, t, v, before, s.next))
  {
    var o, p := Begun(before), Body(w, heap, t, v, before).value;
    var x := Exchange(w, r, heap, p.bin + rest, s.next);
    BodyIsReady(x, t, u, v, before, at, s);
    var phi := ValueArrives(x, t, u, v, Null, at, o, s, map[]);
    DoneIsPassed(x, u, v, at, o, p, s, phi);
    BodyRecordsReach(w, heap, t, v, before);
    ReadMakesAll(r, p.bin + rest, u, at, s);
  }

  lemma BodyWrote(x: Exchange, t: Type, v: Value, before: seq<Byte>)
    requires CanSend(x.w, x.heap, t, v)
    ensures CanWrite(x, t, v, Null, Begun(before))
    ensures Wrote(x, t, v, Null, Begun(before)) == Body(x.w, x.heap, t, v, before)
  {
  }

  /** At the beginning of a body nothing has been written, registered or made. */
  lemma BeginsInSync(x: Exchange, before: seq<Byte>, s: In)
    requires x.base == s.next && s.cursor == |before| && Fresh(s)
    ensures Sync(x.r, x.heap, Begun(before), s, map[], x.base)
  {
  }

  lemma BodyIsReady(x: Exchange, t: Type, u: Type, v: Value, before: seq<Byte>, at: Place, s: In)
    requires BodyReady(x.w, x.r, x.heap, t, u, v, before, s) && x.base == s.next && MayStand(x.w, at)
    requires Body(x.w, x.heap, t, v, before).value.bin <= x.bin
    ensures Readable(x.r, x.bin, u, s)
    ensures ValueReady(x, t, u, v, Null, at, Begun(before), s, map[])
    ensures Wrote(x, t, v, Null, Begun(before)) == Body(x.w, x.heap, t, v, before)
  {
    SetupReads(x, t, u, s);
    BodyWrote(x, t, v, before);
    BeginsInSync(x, before, s);
  }

  /** The naming of a pass is the one that the offsets give. */
  lemma DoneIsPassed(x: Exchange, u: Type, v: Value, at: Place, o: Out, p: Out, s: In, phi: Naming)
    requires x.base == s.next && ValueDone(x, u, v, at, o, p, s, map[], phi)
    ensures PassDone(x.r, x.heap, u, v, Got(x, u, at, s), at, o, p, s, ByOffset(p, s.next))
  {
    DoneAsIsPassed(x, Got(x, u, at, s), u, v, at, o, p, s, phi);
  }

  lemma DoneAsIsPassed(x: Exchange, got: Result<(Value, In)>, u: Type, v: Value, at: Place, o: Out, p: Out, s: In,
                       phi: Naming)
    requires x.base == s.next && ValueDoneAs(x, got, u, v, at, o, p, s, map[], phi)
    ensures PassDone(x.r, x.heap, u, v, got, at, o, p, s, ByOffset(p, s.next))
  {
    if got.Ok? {
      NamingIsByOffset(x.r, x.heap, p, got.value.1, phi, s.next);
    }
  }

  /** A read that ends at `end`: it succeeds exactly when everything fits, and then rebuilds what was written. */
  ghost predicate RoundTrips(r: Context, u: Type, at: Place, heap: Heap, v: Value, got: Result<(Value, In)>, s: In,
                             phi: Naming, end: nat, misleads: bool) {
    && (got.Ok? <==> AllFit(r, u, heap, v))
    && (got.Err? ==> got.error == ErrorValueOverflow)
    && (got.Ok? ==> Rebuilds(r, u, at, heap, v, got.value.0, s, got.value.1, phi, end, misleads))
  }

  /**
    * The objects made are isomorphic to those reached, by the naming `phi` or by none; they are unless the body
    * misleads; and a body misleads without harm only by an entry that has been turned away, of which there is none
    * if all entries with pointers stay.
    */
  ghost predicate Rebuilds(r: Context, u: Type, at: Place, heap: Heap, v: Value, x: Value, s: In, t: In, phi: Naming,
                           end: nat, misleads: bool) {
    && t.cursor == end
    && (forall id | id in s.made :: id in t.made && t.made[id] == s.made[id])
    && (misleads <==> MarredTurned(s, t) || !Isomorphic(r, u, at, heap, v, t.made, x, phi, s.next, t.next))
    && (AllStay(r, u, at, heap, v, phi) ==> !MarredTurned(s, t))
    && (!Isomorphic(r, u, at, heap, v, t.made, x, phi, s.next, t.next) ==>
          forall psi: Naming :: !Isomorphic(r, u, at, heap, v, t.made, x, psi, s.next, t.next))
  }

  /**
    * The central law: a body that was written without an error is read back, on any peer, with any pointers
    * map and any bytes behind it, if and only if the reader's types can hold every integer in it; the only
    * other outcome is the value overflow. A success consumes exactly the bytes written and leaves earlier
    * objects alone. It rebuilds, in new objects numbered in the order of their offsets, a graph isomorphic to what
    * the value reaches, as it settles in the reader's memory, if and only if the body does not mislead, save for
    * misleading references in map entries that are turned away.
    */
  lemma GraphRoundTrip(w: Context, r: Context, heap: Heap, t: Type, u: Type, v: Value, before: seq<Byte>,
                       rest: seq<Byte>, call: nat, s: In)
    requires BodyReady(w, r, heap, t, u, v, before, s)
    ensures Readable(r, Body(w, heap, t, v, before).value.bin + rest, u, s)
    ensures var p := Body(w, heap, t, v, before).value;
            var got := Read(r, p.bin + rest, u, Root(call), s);
            RoundTrips(r, u, Root(call), heap, v, got, s, BodyNaming(w, heap, t, v, before, s.next), |p.bin|,
                       Misleads(w, heap, t, v, before))
  {
    PassArrives(w, r, heap, t, u, v, before, rest, Root(call), s);
    var p := Body(w, heap, t, v, before).value;
    OutcomeRebuilds(w, r, heap, u, v, Read(r, p.bin + rest, u, Root(call), s), Root(call), Begun(before), p, s,
                    BodyNaming(w, heap, t, v, before, s.next));
  }

  lemma OutcomeRebuilds(w: Context, r: Context, heap: Heap, u: Type, v: Value, got: Result<(Value, In)>, at: Place,
                        o: Out, p: Out, s: In, phi: Naming)
    requires Setup(w, r, heap) && PassEnded(r, heap, u, v, got, at, o, p, s, phi)
    ensures RoundTrips(r, u, at, heap, v, got, s, phi, |p.bin|, p.misled)
  {
    FitIsAllFit(w, r, u, heap, v, o, p);
    if got.Ok? {
      DeliveredIsRebuilt(r, u, at, heap, v, got.value.0, o, p, s, got.value.1, phi);
    }
  }

  lemma FitIsAllFit(w: Context, r: Context, u: Type, heap: Heap, v: Value, o: Out, p: Out)
    requires Setup(w, r, heap) && RecordsReach(heap, v, o, p)
    ensures Fits(r, u, v) && NewFit(r, heap, o, p) <==> AllFit(r, u, heap, v)
  {
    assert forall a | a in heap :: heap[a].name in r.types;
  }

  lemma DeliveredIsRebuilt(r: Context, u: Type, at: Place, heap: Heap, v: Value, x: Value, o: Out, p: Out, s: In, t: In,
                           phi: Naming)
    requires Delivers(EntriesStay(r, u, v, at) && NewStay(r, heap, o, p, phi), r, heap, Settled(r, u, v, at), x, o, p,
                      s, t, map[], phi, s.next)
    requires RecordsReach(heap, v, o, p) && AllMade(s, t)
    ensures Rebuilds(r, u, at, heap, v, x, s, t, phi, |p.bin|, p.misled)
  {
    if Marred(x) || MarredMade(t.made, s.next, t.next) {
      forall psi: Naming ensures !Isomorphic(r, u, at, heap, v, t.made, x, psi, s.next, t.next) {
        if Isomorphic(r, u, at, heap, v, t.made, x, psi, s.next, t.next) {
          IsomorphicIsUnmarred(r, u, at, heap, v, t.made, x, psi, s.next, t.next);
        }
      }
    } else {
      DeliveredIsIsomorphic(r, u, at, heap, v, x, p, s, t, phi);
    }
    if AllStay(r, u, at, heap, v, phi) {
      assert NewStay(r, heap, o, p, phi);
    }
  }

  lemma IsomorphicIsUnmarred(r: Context, u: Type, at: Place, heap: Heap, v: Value, made: Heap, x: Value, phi: Naming,
                             base: nat, end: nat)
    requires Isomorphic(r, u, at, heap, v, made, x, phi, base, end)
    ensures !Marred(x) && !MarredMade(made, base, end)
  {
    forall id | base <= id < end ensures id in made && !Marred(made[id].value) {
      assert Hit(phi, id);
      var a :| a in phi && phi[a] == id;
      assert Carries(r, heap, made, phi, a);
    }
  }

  lemma DeliveredIsIsomorphic(r: Context, u: Type, at: Place, heap: Heap, v: Value, x: Value, p: Out, s: In, t: In,
                              phi: Naming)
    requires Sync(r, heap, p, t, phi, s.next) && Same(Settled(r, u, v, at), x, phi)
    requires !MarredMade(t.made, s.next, t.next)
    requires forall a :: Node(a) in p.seen <==> a in Reach(heap, v)
    requires forall id | s.next <= id < t.next :: id in t.made
    ensures Isomorphic(r, u, at, heap, v, t.made, x, phi, s.next, t.next)
  {
    assert phi.Keys == Reach(heap, v);
    OrderedIsInjective(p, phi);
    forall a | a in phi ensures Carries(r, heap, t.made, phi, a) && s.next <= phi[a] < t.next {
      assert Placed(r, heap, p, t, phi, s.next, a);
    }
  }

  // ---------------------------------------------------------------- when the graph itself comes back

  /** Two values that one value renames are the same. */
  lemma {:induction false} SameIsInjective(v: Value, w: Value, x: Value, phi: Naming)
    requires Same(v, x, phi) && Same(w, x, phi)
    requires Injective(phi)
    ensures v == w
  {
    if x.Items? {
      AlikesPointwise(v.items, x.items, phi);
      AlikesPointwise(w.items, x.items, phi);
      MarredPointwise(x.items);
      forall i | 0 <= i < |v.items| ensures v.items[i] == w.items[i] {
        SameIsInjective(v.items[i], w.items[i], x.items[i], phi);
      }
      assert v.items == w.items;
    }
  }

  /** Every skipped struct reached equals what the reader held in its place. */
  ghost predicate ReachHeld(r: Context, u: Type, at: Place, heap: Heap, v: Value, phi: Naming) {
    AllHeld(r, u, v, at) && ObjectsHeld(r, heap, phi)
  }

  ghost predicate ObjectsHeld(r: Context, heap: Heap, phi: Naming) {
    forall a | a in phi && a in heap && heap[a].name in r.types ::
      AllHeld(r, r.types[heap[a].name], heap[a].value, Object(phi[a]))
  }

  /** Value and objects come back as they were written, not only as they settle. */
  ghost predicate Unchanged(heap: Heap, v: Value, made: Heap, x: Value, phi: Naming) {
    Same(v, x, phi) && ObjectsUnchanged(heap, made, phi)
  }

  ghost predicate ObjectsUnchanged(heap: Heap, made: Heap, phi: Naming) {
    forall a | a in phi :: a in heap && phi[a] in made && Same(heap[a].value, made[phi[a]].value, phi)
  }

  lemma HeldStay(w: Context, r: Context, heap: Heap, t: Type, u: Type, v: Value, at: Place, phi: Naming)
    requires Setup(w, r, heap) && Typed(w.flags, t, u, v, heap) && ReachHeld(r, u, at, heap, v, phi)
    ensures AllStay(r, u, at, heap, v, phi)
  {
    HeldStays(w.flags, r, t, u, v, at, heap);
    forall a | a in phi && a in heap && heap[a].name in r.types
      ensures EntriesStay(r, r.types[heap[a].name], heap[a].value, Object(phi[a]))
    {
      HeldStays(w.flags, r, w.types[heap[a].name], r.types[heap[a].name], heap[a].value, Object(phi[a]), heap);
    }
  }

  lemma SettlesOrDiffers(f: Flags, r: Context, t: Type, u: Type, v: Value, at: Place, x: Value, phi: Naming, heap: Heap)
    requires Typed(f, t, u, v, heap) && Alike(Settled(r, u, v, at), x, phi)
    requires Injective(phi)
    ensures Same(v, x, phi) <==> !Marred(x) && AllHeld(r, u, v, at)
  {
    SettledIsValueIff(f, r, t, u, v, at, heap);
    if Same(v, x, phi) {
      SameIsInjective(v, Settled(r, u, v, at), x, phi);
    }
  }

  /** One object made: it is the one written exactly when it is not marred and its skipped structs were there. */
  lemma ObjectComesBackIff(w: Context, r: Context, heap: Heap, p: Out, m: In, phi: Naming, base: nat, a: nat)
    requires Setup(w, r, heap) && Sync(r, heap, p, m, phi, base) && a in phi
    requires forall id | base <= id < m.next :: id in m.made
    ensures a in heap && heap[a].name in r.types && base <= phi[a] < m.next && phi[a] in m.made
    ensures Same(heap[a].value, m.made[phi[a]].value, phi) <==>
            !Marred(m.made[phi[a]].value) && AllHeld(r, r.types[heap[a].name], heap[a].value, Object(phi[a]))
  {
    assert Placed(r, heap, p, m, phi, base, a);
    OrderedIsInjective(p, phi);
    SettlesOrDiffers(w.flags, r, w.types[heap[a].name], r.types[heap[a].name], heap[a].value, Object(phi[a]),
                     m.made[phi[a]].value, phi, heap);
  }

  lemma ObjectsComeBackIff(w: Context, r: Context, heap: Heap, p: Out, s: In, m: In, phi: Naming)
    requires Setup(w, r, heap) && Sync(r, heap, p, m, phi, s.next) && AllMade(s, m)
    ensures ObjectsUnchanged(heap, m.made, phi) <==>
            !MarredMade(m.made, s.next, m.next) && ObjectsHeld(r, heap, phi)
  {
    forall a | a in phi
      ensures a in heap && heap[a].name in r.types && s.next <= phi[a] < m.next && phi[a] in m.made
      ensures Same(heap[a].value, m.made[phi[a]].value, phi) <==>
              !Marred(m.made[phi[a]].value) && AllHeld(r, r.types[heap[a].name], heap[a].value, Object(phi[a]))
    {
      ObjectComesBackIff(w, r, heap, p, m, phi, s.next, a);
    }
    MarredMadeIff(m.made, s.next, m.next, phi);
  }

  lemma MarredMadeIff(made: Heap, base: nat, end: nat, phi: Naming)
    requires forall a | a in phi :: base <= phi[a] < end && phi[a] in made
    requires forall id | base <= id < end :: id in made && Hit(phi, id)
    ensures MarredMade(made, base, end) <==> exists a | a in phi :: Marred(made[phi[a]].value)
  {
    if MarredMade(made, base, end) {
      var id :| base <= id < end && id in made && Marred(made[id].value);
      assert Hit(phi, id);
      var a :| a in phi && phi[a] == id;
      assert Marred(made[phi[a]].value);
    }
  }

  /** The value itself, likewise. */
  lemma ValueComesBackIff(f: Flags, r: Context, heap: Heap, t: Type, u: Type, v: Value, at: Place, x: Value, p: Out,
                          m: In, phi: Naming, base: nat)
    requires Typed(f, t, u, v, heap) && Sync(r, heap, p, m, phi, base) && Alike(Settled(r, u, v, at), x, phi)
    ensures Same(v, x, phi) <==> !Marred(x) && AllHeld(r, u, v, at)
  {
    SyncIsInjective(r, heap, p, m, phi, base);
    SettlesOrDiffers(f, r, t, u, v, at, x, phi, heap);
  }

  lemma DeliveredComesBackIff(w: Context, r: Context, heap: Heap, t: Type, u: Type, v: Value, at: Place, x: Value,
                              p: Out, s: In, m: In, phi: Naming)
    requires Setup(w, r, heap) && Typed(w.flags, t, u, v, heap) && AllMade(s, m)
    requires Sync(r, heap, p, m, phi, s.next) && Alike(Settled(r, u, v, at), x, phi)
    requires p.misled <==> Marred(x) || Spoilt(s, m)
    requires AllStay(r, u, at, heap, v, phi) ==> !MarredTurned(s, m)
    ensures Unchanged(heap, v, m.made, x, phi) <==> !p.misled && ReachHeld(r, u, at, heap, v, phi)
  {
    ValueComesBackIff(w.flags, r, heap, t, u, v, at, x, p, m, phi, s.next);
    ObjectsComeBackIff(w, r, heap, p, s, m, phi);
    UnchangedIff(r, u, at, heap, v, x, s, m, phi, p.misled);
    if ReachHeld(r, u, at, heap, v, phi) {
      HeldStay(w, r, heap, t, u, v, at, phi);
    }
  }

  lemma UnchangedIff(r: Context, u: Type, at: Place, heap: Heap, v: Value, x: Value, s: In, m: In, phi: Naming,
                     misled: bool)
    requires Same(v, x, phi) <==> !Marred(x) && AllHeld(r, u, v, at)
    requires ObjectsUnchanged(heap, m.made, phi) <==>
             !MarredMade(m.made, s.next, m.next) && ObjectsHeld(r, heap, phi)
    requires misled <==> Marred(x) || Spoilt(s, m)
    ensures Unchanged(heap, v, m.made, x, phi) && !MarredTurned(s, m) <==>
            !misled && ReachHeld(r, u, at, heap, v, phi)
    ensures Unchanged(heap, v, m.made, x, phi) ==> ReachHeld(r, u, at, heap, v, phi)
  {
  }

  /**
    * The written graph itself comes back, under the numbers that its offsets give, exactly when it fits, does not
    * mislead, and every skipped struct reached equals what the reader held in its place.
    */
  lemma GraphComesBackIff(w: Context, r: Context, heap: Heap, t: Type, u: Type, v: Value, before: seq<Byte>,
                          rest: seq<Byte>, call: nat, s: In)
    requires BodyReady(w, r, heap, t, u, v, before, s)
    ensures Readable(r, Body(w, heap, t, v, before).value.bin + rest, u, s)
    ensures var got := Read(r, Body(w, heap, t, v, before).value.bin + rest, u, Root(call), s);
            var phi := BodyNaming(w, heap, t, v, before, s.next);
            ComesBackIff(r, u, Root(call), heap, v, got, phi, Misleads(w, heap, t, v, before))
  {
    PassArrives(w, r, heap, t, u, v, before, rest, Root(call), s);
    var p := Body(w, heap, t, v, before).value;
    OutcomeComesBackIff(w, r, heap, t, u, v, Read(r, p.bin + rest, u, Root(call), s), Root(call), Begun(before), p, s,
                        BodyNaming(w, heap, t, v, before, s.next));
  }

  /** A read gives the written graph itself exactly in these cases. */
  ghost predicate ComesBackIff(r: Context, u: Type, at: Place, heap: Heap, v: Value, got: Result<(Value, In)>,
                               phi: Naming, misleads: bool) {
    got.Ok? && Unchanged(heap, v, got.value.1.made, got.value.0, phi) <==>
    AllFit(r, u, heap, v) && !misleads && ReachHeld(r, u, at, heap, v, phi)
  }

  lemma OutcomeComesBackIff(w: Context, r: Context, heap: Heap, t: Type, u: Type, v: Value, got: Result<(Value, In)>,
                            at: Place, o: Out, p: Out, s: In, phi: Naming)
    requires Setup(w, r, heap) && Typed(w.flags, t, u, v, heap)
    requires PassEnded(r, heap, u, v, got, at, o, p, s, phi)
    ensures ComesBackIff(r, u, at, heap, v, got, phi, p.misled)
  {
    OutcomeRebuilds(w, r, heap, u, v, got, at, o, p, s, phi);
    if got.Ok? {
      DeliveredComesBackIff(w, r, heap, t, u, v, at, got.value.0, p, s, got.value.1, phi);
    }
  }

  // ---------------------------------------------------------------- values without pointers

  lemma NothingReached(heap: Heap, v: Value)
    requires Inside(v, {})
    ensures Reach(heap, v) == {}
  {
    assert Closed(heap, {});
    forall a | a in heap ensures !ReachedFrom(heap, v, a) {
      assert a !in {};
    }
  }

  /** A value without pointers, read anywhere: what settles is what arrives, if the reader's types can hold it. */
  ghost predicate PlainArrives(r: Context, u: Type, v: Value, at: Place, got: Result<(Value, In)>, s: In, end: nat) {
    && (got.Ok? <==> Fits(r, u, v))
    && (got.Err? ==> got.error == ErrorValueOverflow)
    && (got.Ok? ==>
          && got.value.0 == Settled(r, u, v, at) && (got.value.0 == v <==> AllHeld(r, u, v, at))
          && got.value.1.next == s.next && got.value.1.cursor == end)
  }

  lemma PlainRoundTrip(w: Context, r: Context, heap: Heap, t: Type, u: Type, v: Value, before: seq<Byte>,
                       rest: seq<Byte>, at: Place, s: In)
    requires BodyReady(w, r, heap, t, u, v, before, s) && NoPointers(t) && MayStand(w, at)
    ensures Readable(r, Body(w, heap, t, v, before).value.bin + rest, u, s)
    ensures var p := Body(w, heap, t, v, before).value;
            PlainArrives(r, u, v, at, Read(r, p.bin + rest, u, at, s), s, |p.bin|)
  {
    var p := Body(w, heap, t, v, before).value;
    PassArrives(w, r, heap, t, u, v, before, rest, at, s);
    PlainDelivered(w, r, heap, t, u, v, Read(r, p.bin + rest, u, at, s), at, Begun(before), p, s,
                   BodyNaming(w, heap, t, v, before, s.next));
  }

  /**
    * Without pointers the value itself comes back, if the reader's types can hold it, every skipped struct being
    * what the reader held; no object is made, and exactly `rest` is left.
    */
  lemma ValueRoundTrip(w: Context, r: Context, heap: Heap, t: Type, u: Type, v: Value, before: seq<Byte>,
                       rest: seq<Byte>, call: nat, s: In)
    requires BodyReady(w, r, heap, t, u, v, before, s) && NoPointers(t)
    ensures Readable(r, Body(w, heap, t, v, before).value.bin + rest, u, s)
    ensures var bin := Body(w, heap, t, v, before).value.bin + rest;
            var got := Read(r, bin, u, Root(call), s);
            && (got.Ok? <==> Fits(r, u, v))
            && (got.Err? ==> got.error == ErrorValueOverflow)
            && (got.Ok? ==>
                  && got.value.0 == Settled(r, u, v, Root(call))
                  && (got.value.0 == v <==> AllHeld(r, u, v, Root(call)))
                  && got.value.1.next == s.next && bin[got.value.1.cursor..] == rest)
  {
    var p, bin := Body(w, heap, t, v, before).value, Body(w, heap, t, v, before).value.bin + rest;
    PlainRoundTrip(w, r, heap, t, u, v, before, rest, Root(call), s);
    assert bin[|p.bin|..] == rest;
  }

  lemma PlainDelivered(w: Context, r: Context, heap: Heap, t: Type, u: Type, v: Value, got: Result<(Value, In)>,
                       at: Place, o: Out, p: Out, s: In, phi: Naming)
    requires Setup(w, r, heap) && Paired(w, r, t, u) && Typed(w.flags, t, u, v, heap) && NoPointers(t)
    requires PassEnded(r, heap, u, v, got, at, o, p, s, phi)
    ensures PlainArrives(r, u, v, at, got, s, |p.bin|)
  {
    NoPointersInside(t, v, heap);
    NothingReached(heap, v);
    if got.Ok? {
      SettledInside(r, u, v, at, {});
      AlikeIsEqual(Settled(r, u, v, at), got.value.0, phi);
      SettledIsValueIff(w.flags, r, t, u, v, at, heap);
      assert s.next < got.value.1.next ==> Hit(phi, s.next);
    }
  }

  /** A type with no skipped struct in it gives every value back. */
  lemma UnskippedValueComesBack(w: Context, r: Context, t: Type, u: Type, v: Value, at: Place)
    requires w.flags == r.flags && w.interfaceVersion == r.interfaceVersion
    requires TypeOk(t) && TypeOk(u) && Twin(w.flags, t, u) && Unskipped(w, t)
    ensures AllHeld(r, u, v, at)
  {
    UnskippedAgree(w, r, t, u);
    UnskippedIsHeld(r, u, v, at);
  }
}
