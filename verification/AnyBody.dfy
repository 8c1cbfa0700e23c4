/** What holds of a read whatever octets it is given, whether or not a serializer wrote them. */
module AnyBody {
  import opened Status
  import opened Bytes
  import opened Types
  import opened Layout
  import opened Reader
  import opened Steps
  import opened Leaves
  import opened Wire
  import opened Truncation

  // ---------------------------------------------------------------- numbers

  /** The `width` octets at `at`. */
  function Octets(bin: Bin, at: nat, width: nat): seq<Byte>
    requires at + width <= |bin|
  {
    bin[at..at + width]
  }

  /** A size: the number its octets spell, whatever the host. */
  lemma SizeIsRead(c: Context, bin: Bin, s: In, n: nat)
    ensures |bin| < s.cursor + SizeOctets(c.flags) ==>
              ReadSize(c, bin, s) == Err(if c.flags.bitness32 then ErrorDataCorrupted else ErrorOverflow)
    ensures s.cursor + SizeOctets(c.flags) <= |bin| && n < SizeLimit(c.flags)
            && Spells(Octets(bin, s.cursor, SizeOctets(c.flags)), c.flags.bigEndianFormat, n) ==>
              ReadSize(c, bin, s) == Ok((n, s.(cursor := s.cursor + SizeOctets(c.flags))))
  {
    PowersAreLimits();
    var width := SizeOctets(c.flags);
    if s.cursor + width <= |bin| && n < SizeLimit(c.flags)
       && Spells(Octets(bin, s.cursor, width), c.flags.bigEndianFormat, n) {
      SpeltIsRead(c.bigEndianHost, c.flags.bigEndianFormat, Octets(bin, s.cursor, width), n);
    }
  }

  /**
    * An integer of `width` octets for a variable of type `target`: `n` is what its octets say in two's complement, or
    * without a sign. Only widths that an integer can have are read; octets that are missing from another width are
    * corruption; and what does not fit the variable is an overflow.
    */
  ghost predicate IntegerIsRead(c: Context, bin: Bin, width: nat, target: Scalar, n: int, s: In,
                                got: Result<(Value, In)>) {
    if width != 1 && width != 2 && width != 4 && width != 8 then
      got == Err(ErrorInternal)
    else if |bin| < s.cursor + width then
      got == Err(if width == target.width then ErrorOverflow else ErrorDataCorrupted)
    else
      InRange(target.(width := width), n)
      && Spells(Octets(bin, s.cursor, width), c.flags.bigEndianFormat, TwosComplement(n, width)) ==>
        got == if InRange(target, n) then Ok((Num(n), s.(cursor := s.cursor + width))) else Err(ErrorValueOverflow)
  }

  /** Every number of a width has a two's complement in it. */
  lemma InRangeIsSpelt(target: Scalar, width: nat, n: int)
    requires InRange(target.(width := width), n)
    ensures 0 <= TwosComplement(n, width) == Pattern(target.(width := width), n)
  {
  }

  function Numbered(got: Result<(int, In)>): Result<(Value, In)> {
    var (n, after) :- got;
    Ok((Num(n), after))
  }

  lemma IntegerRead(c: Context, bin: Bin, width: nat, target: Scalar, n: int, s: In)
    requires ScalarOk(target) && Fresh(s)
    ensures IntegerIsRead(c, bin, width, target, n, s, Numbered(ReadPrimAs(c, bin, width, target, s)))
  {
    var origin := target.(width := width);
    if InRange(origin, n) && ScalarOk(origin) && s.cursor + width <= |bin|
       && Spells(Octets(bin, s.cursor, width), c.flags.bigEndianFormat, TwosComplement(n, width)) {
      InRangeIsSpelt(target, width, n);
      IntegerArrives(c, bin, width, target, n, s);
    }
  }

  lemma IntegerArrives(c: Context, bin: Bin, width: nat, target: Scalar, n: int, s: In)
    requires ScalarOk(target) && Fresh(s) && ScalarOk(target.(width := width)) && InRange(target.(width := width), n)
    requires s.cursor + width <= |bin|
    requires Spells(Octets(bin, s.cursor, width), c.flags.bigEndianFormat, Pattern(target.(width := width), n))
    ensures ReadPrimAs(c, bin, width, target, s) ==
            if InRange(target, n) then Ok((n, s.(cursor := s.cursor + width))) else Err(ErrorValueOverflow)
  {
    var origin, raw := target.(width := width), Octets(bin, s.cursor, width);
    SpeltIsRead(c.bigEndianHost, c.flags.bigEndianFormat, raw, Pattern(origin, n));
    FetchedDecodes(c, bin, origin, target, n, raw, s);
  }

  /** In a message whose widths may differ, an octet with the width stands in front of a scalar whose width may. */
  lemma ScalarIsRead(c: Context, bin: Bin, sc: Scalar, at: Place, s: In, n: int)
    requires Readable(c, bin, Prim(sc), s)
    ensures var got := Read(c, bin, Prim(sc), at, s);
            if !c.flags.sizeOfIntegersMayBeNotEqual || sc.fixed then IntegerIsRead(c, bin, sc.width, sc, n, s, got)
            else if |bin| == s.cursor then got == Err(ErrorOverflow)
            else IntegerIsRead(c, bin, bin[s.cursor], sc, n, s.(cursor := s.cursor + 1), got)
  {
    ScalarIsNumbered(c, bin, sc, at, s);
    if !Tagged(c, sc) {
      IntegerRead(c, bin, sc.width, sc, n, s);
    } else if s.cursor < |bin| {
      IntegerRead(c, bin, bin[s.cursor], sc, n, s.(cursor := s.cursor + 1));
    }
  }

  lemma ScalarIsNumbered(c: Context, bin: Bin, sc: Scalar, at: Place, s: In)
    requires Readable(c, bin, Prim(sc), s)
    ensures Read(c, bin, Prim(sc), at, s) ==
            if !Tagged(c, sc) then Numbered(ReadPrimAs(c, bin, sc.width, sc, s))
            else if |bin| == s.cursor then Err(ErrorOverflow)
            else Numbered(ReadPrimAs(c, bin, bin[s.cursor], sc, s.(cursor := s.cursor + 1)))
  {
    ReadPrimUnfolds(c, bin, Prim(sc), at, s);
  }

  // ---------------------------------------------------------------- references

  /**
    * A pointer, with the check of recursive pointers, where its octets spell `offset`: 0 is null and 1 a new object
    * behind it; what lies ahead is refused; and an offset behind is a reference to what is registered there, or null
    * if nothing is.
    */
  lemma ReferenceIsRead(c: Context, bin: Bin, name: nat, at: Place, s: In, offset: nat)
    requires Readable(c, bin, Pointer(name), s) && c.flags.allowUnmanagedPointers && c.flags.checkRecursivePointers
    requires s.cursor + SizeOctets(c.flags) <= |bin| && offset < SizeLimit(c.flags)
    requires Spells(Octets(bin, s.cursor, SizeOctets(c.flags)), c.flags.bigEndianFormat, offset)
    ensures var got, behind := Read(c, bin, Pointer(name), at, s), s.cursor + SizeOctets(c.flags);
            if offset == 0 then got == Ok((Link(Null), s.(cursor := behind)))
            else if offset == 1 then
              var entered := s.(cursor := behind, next := s.next + 1, places := s.places[behind := Node(s.next)]);
              && name in c.types && Readable(c, bin, c.types[name], entered)
              && got == Made(name, s.next, Read(c, bin, c.types[name], Object(s.next), entered))
            else if behind <= offset then got == Err(ErrorInternal)
            else if offset in s.places then
              got == Ok((Link(s.places[offset]), s.(cursor := behind)))
            else got == Ok((Link(Null), s.(cursor := behind, places := s.places[offset := Null])))
  {
    SizeIsRead(c, bin, s, offset);
    PointerUnfolds(c, bin, Pointer(name), at, s);
    if offset in s.places {
      assert s.places[offset := s.places[offset]] == s.places;
    }
  }

  // ---------------------------------------------------------------- no dangling pointers

  /**
    * Where a pointer may lead at a cursor: nowhere, to an object numbered from `base` on and before `next`, or to an
    * array element that begins before the cursor.
    */
  predicate Leads(ref: Ref, base: nat, next: nat, cursor: nat) {
    match ref
    case Null => true
    case Node(id) => base <= id < next
    case Element(at) => at < cursor
  }

  predicate AllLead(v: Value, base: nat, next: nat, cursor: nat) {
    match v
    case Num(_) => true
    case Link(ref) => Leads(ref, base, next, cursor)
    case Items(vs) => forall i | 0 <= i < |vs| :: AllLead(vs[i], base, next, cursor)
  }

  predicate EachLeads(vs: seq<Value>, base: nat, next: nat, cursor: nat) {
    forall i | 0 <= i < |vs| :: AllLead(vs[i], base, next, cursor)
  }

  /** Elements are registered at their own offsets, objects under numbers already given. */
  ghost predicate PlacesLead(s: In, base: nat) {
    forall o | o in s.places ::
      match s.places[o]
      case Null => true
      case Node(id) => base <= id < s.next
      case Element(at) => at == o
  }

  ghost predicate Sound(s: In, base: nat) {
    && base <= s.next && PlacesLead(s, base)
    && forall id | id in s.made && base <= id :: AllLead(s.made[id].value, base, s.next, s.cursor)
  }

  /** The object a place begins, if any, has its number already. */
  predicate PlaceKnown(at: Place, s: In, base: nat) {
    Lead(at).Node? ==> base <= Lead(at).id < s.next
  }

  predicate RowKnown(row: Row, s: In, base: nat) {
    row.inline ==> PlaceKnown(row.whole, s, base)
  }

  ghost predicate SoundValue(got: Result<(Value, In)>, base: nat) {
    got.Ok? ==> Sound(got.value.1, base) && AllLead(got.value.0, base, got.value.1.next, got.value.1.cursor)
  }

  ghost predicate SoundItems(got: Result<(seq<Value>, In)>, base: nat) {
    got.Ok? ==> Sound(got.value.1, base) && EachLeads(got.value.0, base, got.value.1.next, got.value.1.cursor)
  }

  lemma {:induction false} LeadsFurther(v: Value, base: nat, next: nat, cursor: nat, later: nat, further: nat)
    requires AllLead(v, base, next, cursor) && next <= later && cursor <= further
    ensures AllLead(v, base, later, further)
    decreases v
  {
    if v.Items? {
      forall i | 0 <= i < |v.items| ensures AllLead(v.items[i], base, later, further) {
        LeadsFurther(v.items[i], base, next, cursor, later, further);
      }
    }
  }

  lemma EachLeadsFurther(vs: seq<Value>, base: nat, next: nat, cursor: nat, later: nat, further: nat)
    requires EachLeads(vs, base, next, cursor) && next <= later && cursor <= further
    ensures EachLeads(vs, base, later, further)
  {
    forall i | 0 <= i < |vs| ensures AllLead(vs[i], base, later, further) {
      LeadsFurther(vs[i], base, next, cursor, later, further);
    }
  }

  /** The cursor moves on, or a number is given to a new object. */
  lemma SoundFurther(s: In, t: In, base: nat)
    requires Sound(s, base) && s.made == t.made && s.places == t.places && s.next <= t.next && s.cursor <= t.cursor
    ensures Sound(t, base)
  {
    forall id | id in t.made && base <= id ensures AllLead(t.made[id].value, base, t.next, t.cursor) {
      LeadsFurther(t.made[id].value, base, s.next, s.cursor, t.next, t.cursor);
    }
  }

  // ---------------------------------------------------------------- values without pointers

  lemma {:induction false} TypedLeads(t: Type, v: Value, base: nat, next: nat, cursor: nat)
    requires HasType(t, v, map[])
    ensures AllLead(v, base, next, cursor)
    decreases v
  {
    if v.Items? {
      forall i | 0 <= i < |v.items| ensures AllLead(v.items[i], base, next, cursor) {
        match t
        case Struct(_, _, _, fields, _) => TypedLeads(fields[i], v.items[i], base, next, cursor);
        case Array(e, _) => TypedLeads(e, v.items[i], base, next, cursor);
        case Vector(e) => TypedLeads(e, v.items[i], base, next, cursor);
        case String(u) => TypedLeads(u, v.items[i], base, next, cursor);
        case Map(e) => TypedLeads(e, v.items[i], base, next, cursor);
      }
    }
  }

  lemma {:induction false} DefaultLeads(t: Type, base: nat, next: nat, cursor: nat)
    ensures AllLead(Default(t), base, next, cursor)
    decreases t
  {
    match t
    case Struct(_, _, _, fields, _) =>
      forall i | 0 <= i < |fields| ensures AllLead(Default(fields[i]), base, next, cursor) {
        DefaultLeads(fields[i], base, next, cursor);
      }
    case Array(e, _) => DefaultLeads(e, base, next, cursor);
    case _ =>
  }

  lemma {:induction false} RawLeads(host: bool, t: Type, s: seq<Byte>, base: nat, next: nat, cursor: nat)
    requires Plain(t) && TypeOk(t) && |s| == RawSize(t)
    ensures AllLead(FromRaw(host, t, s), base, next, cursor)
    decreases t, 0
  {
    match t
    case Prim(_) =>
    case Array(e, n) => RawElemsLead(host, e, n, s, base, next, cursor);
    case Struct(_, _, _, fields, pads) => RawFieldsLead(host, fields, pads, s, base, next, cursor);
  }

  lemma {:induction false} RawElemsLead(host: bool, e: Type, n: nat, s: seq<Byte>, base: nat, next: nat, cursor: nat)
    requires Plain(e) && TypeOk(e) && |s| == BlockSize(RawSize(e), n)
    ensures EachLeads(FromRawElems(host, e, n, s), base, next, cursor)
    decreases e, 1 + n
  {
    if n != 0 {
      RawLeads(host, e, s[..RawSize(e)], base, next, cursor);
      RawElemsLead(host, e, n - 1, s[RawSize(e)..], base, next, cursor);
    }
  }

  lemma {:induction false} RawFieldsLead(host: bool, ts: seq<Type>, pads: seq<nat>, s: seq<Byte>, base: nat, next: nat,
                                         cursor: nat)
    requires |ts| == |pads| && (forall t | t in ts :: Plain(t) && TypeOk(t)) && |s| == RawSizes(ts, pads)
    ensures EachLeads(FromRawFields(host, ts, pads, s), base, next, cursor)
    decreases ts, 0
  {
    if ts != [] {
      var n := RawSize(ts[0]);
      RawLeads(host, ts[0], s[..n], base, next, cursor);
      RawFieldsLead(host, ts[1..], pads[1..], s[n + pads[0]..], base, next, cursor);
    }
  }

  // ---------------------------------------------------------------- reading

  /** Every pointer that is read, in the value or in an object made for it, leads somewhere. */
  lemma {:induction false} ReadLeads(c: Context, bin: Bin, t: Type, at: Place, s: In, base: nat)
    requires Readable(c, bin, t, s) && Sound(s, base) && PlaceKnown(at, s, base)
    ensures SoundValue(Read(c, bin, t, at, s), base)
    decreases |bin| - s.cursor, t, 1
  {
    match t
    case Prim(_) => PrimLeads(c, bin, t, at, s, base);
    case Pointer(_) =>
      if c.flags.allowUnmanagedPointers {
        PointerLeads(c, bin, t, at, s, base);
      }
    case Struct(_, _, _, _, _) => StructLeads(c, bin, t, at, s, base);
    case Array(e, n) =>
      ReadCountedUnfolds(c, bin, t, n, at, s, s);
      ReadArrayLeads(c, bin, e, n, Row(at, true), s, base);
    case _ => CountedLeads(c, bin, t, at, s, base);
  }

  lemma PrimLeads(c: Context, bin: Bin, t: Type, at: Place, s: In, base: nat)
    requires Readable(c, bin, t, s) && Sound(s, base) && t.Prim?
    ensures SoundValue(Read(c, bin, t, at, s), base)
  {
    ReadPrimUnfolds(c, bin, t, at, s);
    PrimMovesOn(c, bin, t.scalar, s);
    var got := ReadPrim(c, bin, t.scalar, s);
    if got.Ok? {
      SoundFurther(s, got.value.1, base);
    }
  }

  lemma PrimMovesOn(c: Context, bin: Bin, target: Scalar, s: In)
    requires ScalarOk(target) && Fresh(s)
    ensures var got := ReadPrim(c, bin, target, s);
            got.Ok? ==> s.cursor <= got.value.1.cursor && got.value.1 == s.(cursor := got.value.1.cursor)
  {
  }

  lemma {:induction false} PrimsMoveOn(c: Context, bin: Bin, width: nat, target: Scalar, n: nat, s: In)
    requires ScalarOk(target) && Fresh(s) && s.cursor <= |bin|
    ensures var got := ReadPrimsAs(c, bin, width, target, n, s);
            got.Ok? ==> s.cursor <= got.value.1.cursor && got.value.1 == s.(cursor := got.value.1.cursor)
                        && forall i | 0 <= i < n :: got.value.0[i].Num?
    decreases n
  {
    if n != 0 {
      var one := ReadPrimAs(c, bin, width, target, s);
      if one.Ok? {
        PrimsMoveOn(c, bin, width, target, n - 1, one.value.1);
      }
    }
  }

  /** A reference back gives what is registered, and leaves it registered. */
  lemma MarkLeads(c: Context, bin: Bin, s: In, base: nat)
    requires Sound(s, base)
    ensures var mark := ReadMark(c, bin, s);
            mark.Ok? ==>
              && Sound(mark.value.1, base)
              && (mark.value.0.There? ==> Leads(mark.value.0.ref, base, s.next, mark.value.1.cursor))
              && mark.value.1.next == s.next
  {
    var mark := ReadMark(c, bin, s);
    if mark.Ok? {
      SoundFurther(s, s.(cursor := mark.value.1.cursor), base);
    }
  }

  lemma AllocatedIsSound(c: Context, s: In, base: nat)
    requires Sound(s, base)
    ensures Sound(Allocated(c, s), base)
  {
    SoundFurther(s, s.(next := s.next + 1), base);
  }

  lemma {:induction false} PointerLeads(c: Context, bin: Bin, t: Type, at: Place, s: In, base: nat)
    requires Readable(c, bin, t, s) && Sound(s, base) && t.Pointer? && c.flags.allowUnmanagedPointers
    ensures SoundValue(Read(c, bin, t, at, s), base)
    decreases |bin| - s.cursor, t, 0
  {
    MarkLeads(c, bin, s, base);
    PointerUnfolds(c, bin, t, at, s);
    var mark := ReadMark(c, bin, s);
    if mark.Ok? && mark.value.0.New? {
      var entered := Allocated(c, mark.value.1);
      AllocatedIsSound(c, mark.value.1, base);
      ReadLeads(c, bin, c.types[t.target], Object(s.next), entered, base);
      MadeLeads(t.target, s.next, Read(c, bin, c.types[t.target], Object(s.next), entered), bin, entered, base);
    }
  }

  lemma MadeLeads(name: nat, id: nat, pointee: Result<(Value, In)>, bin: Bin, entered: In, base: nat)
    requires SoundValue(pointee, base) && base <= id < entered.next
    requires pointee.Ok? ==> Advances(bin, entered, pointee.value.1)
    ensures SoundValue(Made(name, id, pointee), base)
  {
  }

  lemma {:induction false} StructLeads(c: Context, bin: Bin, t: Type, at: Place, s: In, base: nat)
    requires Readable(c, bin, t, s) && Sound(s, base) && PlaceKnown(at, s, base) && t.Struct?
    ensures SoundValue(Read(c, bin, t, at, s), base)
    decreases |bin| - s.cursor, t, 0
  {
    if RawBlock(c, t) {
      var raw := Fetch(bin, RawSize(t), s);
      if raw.Ok? {
        RawLeads(c.bigEndianHost, t, raw.value.0, base, s.next, raw.value.1.cursor);
        SoundFurther(s, raw.value.1, base);
      }
    } else if Skipped(c, t) {
      ReadSkippedUnfolds(c, bin, t, at, s);
      HeldLeads(c, t, at, base, s.next, s.cursor);
    } else if AnySimplyAssignable(t.tags) ==> t.hasFunctions {
      ReadStructUnfolds(c, bin, t, at, s);
      ReadFieldsLead(c, bin, t.fields, at, 0, s, base);
    }
  }

  lemma HeldLeads(c: Context, t: Type, at: Place, base: nat, next: nat, cursor: nat)
    ensures AllLead(Held(c, t, at), base, next, cursor)
  {
    if at in c.held && HasType(t, c.held[at], map[]) {
      TypedLeads(t, c.held[at], base, next, cursor);
    } else {
      DefaultLeads(t, base, next, cursor);
    }
  }

  lemma {:induction false} CountedLeads(c: Context, bin: Bin, t: Type, at: Place, s: In, base: nat)
    requires Readable(c, bin, t, s) && Sound(s, base) && (t.Vector? || t.String? || t.Map?)
    ensures SoundValue(Read(c, bin, t, at, s), base)
    decreases |bin| - s.cursor, t, 0
  {
    var size, row := ReadSize(c, bin, s), Row(at, false);
    if size.Err? {
      NoSize(c, bin, t, at, s);
    } else {
      var n, sized := size.value.0, size.value.1;
      SoundFurther(s, sized, base);
      match t
      case Vector(e) =>
        ReadCountedUnfolds(c, bin, t, n, at, s, sized);
        ReadArrayLeads(c, bin, e, n, row, sized, base);
      case String(u) =>
        ReadStringUnfolds(c, bin, t, n, at, s, sized);
        ReadArrayLeads(c, bin, u, n + 1, row, sized, base);
      case Map(e) =>
        ReadMapUnfolds(c, bin, t, n, at, s, sized);
        ReadElemsLead(c, bin, e, n, false, row, 0, sized, base);
        InsertedLead(ReadElems(c, bin, e, n, false, row, 0, sized), base);
    }
  }

  lemma InsertedLead(got: Result<(seq<Value>, In)>, base: nat)
    requires SoundItems(got, base)
    ensures SoundValue(AllInserted(got, [], []), base)
  {
    if got.Ok? {
      var t := got.value.1;
      InsertedAreItems([], got.value.0, base, t.next, t.cursor);
      SoundFurther(t, AllInserted(got, [], []).value.1, base);
    }
  }

  lemma {:induction false} InsertedAreItems(got: seq<Value>, vs: seq<Value>, base: nat, next: nat, cursor: nat)
    requires EachLeads(got, base, next, cursor) && EachLeads(vs, base, next, cursor)
    ensures EachLeads(InsertAll(got, vs), base, next, cursor)
    decreases |vs|
  {
    if vs != [] {
      InsertedAreItems(Insert(got, vs[0]), vs[1..], base, next, cursor);
    }
  }

  lemma {:induction false} ReadArrayLeads(c: Context, bin: Bin, e: Type, n: nat, row: Row, s: In, base: nat)
    requires Readable(c, bin, e, s) && Sound(s, base) && RowKnown(row, s, base)
    ensures SoundItems(ReadArray(c, bin, e, n, row, s), base)
    decreases |bin| - s.cursor, e, n + 3
  {
    if e.Struct? && e.tags.empty {
      DefaultLeads(e, base, s.next, s.cursor);
    } else if RawBlock(c, e) {
      BlockLeads(c, bin, e, n, row, s, base);
    } else {
      ReadElemsLead(c, bin, e, n, c.flags.checkRecursivePointers, row, 0, s, base);
    }
  }

  lemma BlockLeads(c: Context, bin: Bin, e: Type, n: nat, row: Row, s: In, base: nat)
    requires Readable(c, bin, e, s) && Sound(s, base) && RawBlock(c, e) && !(e.Struct? && e.tags.empty)
    ensures SoundItems(ReadArray(c, bin, e, n, row, s), base)
  {
    var after := s.(cursor := s.cursor + 1);
    if e.Prim? && Tagged(c, e.scalar) {
      if s.cursor < |bin| {
        SoundFurther(s, after, base);
        RawBlockLeads(c, bin, e, n, after, base);
        PrimsMoveOn(c, bin, bin[s.cursor], e.scalar, n, after);
        var got := ReadPrimsAs(c, bin, bin[s.cursor], e.scalar, n, after);
        if got.Ok? {
          SoundFurther(s, got.value.1, base);
        }
      }
    } else {
      RawBlockLeads(c, bin, e, n, s, base);
    }
  }

  lemma RawBlockLeads(c: Context, bin: Bin, e: Type, n: nat, s: In, base: nat)
    requires TypeOk(e) && Plain(e) && Fresh(s) && Sound(s, base)
    ensures SoundItems(ReadBlock(c, bin, e, n, s), base)
  {
    var raw := Fetch(bin, BlockSize(RawSize(e), n), s);
    if raw.Ok? {
      RawElemsLead(c.bigEndianHost, e, n, raw.value.0, base, s.next, raw.value.1.cursor);
      SoundFurther(s, raw.value.1, base);
    }
  }

  lemma NotedIsSound(s: In, register: bool, row: Row, i: nat, base: nat)
    requires Sound(s, base) && RowKnown(row, s, base)
    ensures PlaceKnown(Spot(row, i), s, base) && Sound(NotedIn(s, register, Spot(row, i)), base)
  {
  }

  lemma {:induction false} ReadElemsLead(c: Context, bin: Bin, e: Type, n: nat, register: bool, row: Row, i: nat,
                                         s: In, base: nat)
    requires Readable(c, bin, e, s) && Sound(s, base) && RowKnown(row, s, base)
    ensures SoundItems(ReadElems(c, bin, e, n, register, row, i, s), base)
    decreases |bin| - s.cursor, e, n + 2
  {
    if n != 0 {
      var noted := NotedIn(s, register, Spot(row, i));
      NotedIsSound(s, register, row, i, base);
      ElemsAreBehind(c, bin, e, n, register, row, i, s, noted);
      ReadLeads(c, bin, e, Spot(row, i), noted, base);
      var head := Read(c, bin, e, Spot(row, i), noted);
      if head.Ok? {
        RowStaysKnown(row, s, noted, head.value.1, bin, register, Spot(row, i), base);
        ReadElemsLead(c, bin, e, n - 1, register, row, i + 1, head.value.1, base);
      }
      PrependLeads(head, Behind(c, bin, e, n - 1, register, row, i + 1, head), base);
    }
  }

  lemma RowStaysKnown(row: Row, s: In, noted: In, t: In, bin: Bin, register: bool, at: Place, base: nat)
    requires RowKnown(row, s, base) && noted == NotedIn(s, register, at) && Advances(bin, noted, t)
    ensures RowKnown(row, t, base) && s.cursor <= t.cursor
  {
  }

  lemma PrependLeads(head: Result<(Value, In)>, tail: Result<(seq<Value>, In)>, base: nat)
    requires SoundValue(head, base) && SoundItems(tail, base)
    requires head.Ok? && tail.Ok? ==>
               head.value.1.next <= tail.value.1.next && head.value.1.cursor <= tail.value.1.cursor
    ensures SoundItems(Prepend(head, tail), base)
  {
    if head.Ok? && tail.Ok? {
      var s, t := head.value.1, tail.value.1;
      LeadsFurther(head.value.0, base, s.next, s.cursor, t.next, t.cursor);
    }
  }

  lemma {:induction false} ReadFieldsLead(c: Context, bin: Bin, ts: seq<Type>, whole: Place, k: nat, s: In, base: nat)
    requires FieldsReadable(c, ts) && Fresh(s) && s.cursor <= |bin| && Sound(s, base) && PlaceKnown(whole, s, base)
    ensures SoundItems(ReadFields(c, bin, ts, whole, k, s), base)
    decreases |bin| - s.cursor, ts, 0
  {
    if ts != [] {
      ReadFieldsUnfolds(c, bin, ts, whole, k, s);
      ReadLeads(c, bin, ts[0], Part(whole, k), s, base);
      var head := Read(c, bin, ts[0], Part(whole, k), s);
      if head.Ok? {
        ReadFieldsLead(c, bin, ts[1..], whole, k + 1, head.value.1, base);
        PrependLeads(head, ReadFields(c, bin, ts[1..], whole, k + 1, head.value.1), base);
      }
    }
  }

  // ---------------------------------------------------------------- a whole body

  /** Null, an object that has been made, or an array element in the part of the body that has been read. */
  predicate NotDangling(ref: Ref, t: In) {
    match ref
    case Null => true
    case Node(id) => id in t.made
    case Element(at) => at < t.cursor
  }

  predicate NoneDangles(v: Value, t: In) {
    match v
    case Num(_) => true
    case Link(ref) => NotDangling(ref, t)
    case Items(vs) => forall i | 0 <= i < |vs| :: NoneDangles(vs[i], t)
  }

  lemma {:induction false} LeadingIsNotDangling(v: Value, base: nat, t: In)
    requires AllLead(v, base, t.next, t.cursor) && forall id | base <= id < t.next :: id in t.made
    ensures NoneDangles(v, t)
    decreases v
  {
    if v.Items? {
      forall i | 0 <= i < |v.items| ensures NoneDangles(v.items[i], t) {
        LeadingIsNotDangling(v.items[i], base, t);
      }
    }
  }

  /**
    * Whatever the octets are, a read that succeeds from an empty pointers map leaves no dangling pointer, neither in
    * the value nor in the objects made for it.
    */
  lemma NothingDangles(c: Context, bin: Bin, t: Type, call: nat, s: In)
    requires Readable(c, bin, t, s) && s.places == map[] && Read(c, bin, t, Root(call), s).Ok?
    ensures var (v, end) := Read(c, bin, t, Root(call), s).value;
            && NoneDangles(v, end)
            && (forall id | s.next <= id < end.next :: id in end.made && NoneDangles(end.made[id].value, end))
            && end.next - s.next <= end.cursor - s.cursor
  {
    ReadLeads(c, bin, t, Root(call), s, s.next);
    var (v, end) := Read(c, bin, t, Root(call), s).value;
    LeadingIsNotDangling(v, s.next, end);
    forall id | s.next <= id < end.next ensures id in end.made && NoneDangles(end.made[id].value, end) {
      LeadingIsNotDangling(end.made[id].value, s.next, end);
    }
  }
}
