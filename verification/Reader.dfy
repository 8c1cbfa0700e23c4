/** The specification of the deserializing half of BodyProcessor, as a function on the input state. */
module Reader {
  import opened Status
  import opened Bytes
  import opened Types
  import opened Layout
  import opened Writer

  /**
    * The cursor, the objects made for pointers (the added pointers, keyed by the order of allocation),
    * the number of allocations so far, and the pointers map from stream offsets to what was made there.
    * `turned` keeps book of the map entries that insert has turned away because their key was there.
    */
  datatype In = In(cursor: nat, made: Heap, next: nat, places: map<nat, Ref>, turned: seq<Value>)

  type Bin = seq<Byte>

  ghost predicate Fresh(s: In) {
    forall id | id in s.made :: id < s.next
  }

  /**
    * Reading moves forward, makes exactly the objects it allocates, at most one for each octet, and leaves earlier
    * ones alone.
    */
  ghost predicate Advances(bin: Bin, s: In, t: In) {
    && s.cursor <= t.cursor <= |bin|
    && s.next <= t.next && t.next - s.next <= t.cursor - s.cursor
    && Fresh(t)
    && (forall id | id in s.made :: id in t.made && t.made[id] == s.made[id])
    && (forall id | id in t.made && id < s.next :: id in s.made)
    && (forall id | s.next <= id < t.next :: id in t.made)
    && s.turned <= t.turned
  }

  /** readRawData and readArithmeticValue: `n` octets at the cursor, or ErrorOverflow. */
  function Fetch(bin: Bin, n: nat, s: In): (r: Result<(seq<Byte>, In)>)
    ensures r.Ok? ==> |r.value.0| == n && s.cursor + n <= |bin| && r.value.1 == s.(cursor := s.cursor + n)
  {
    if s.cursor + n <= |bin|
    then Ok((bin[s.cursor..s.cursor + n], s.(cursor := s.cursor + n)))
    else Err(ErrorOverflow)
  }

  /** The octets of an integer; running out of them is corruption when the width is not the reader's own. */
  function FetchAs(bin: Bin, width: nat, own: nat, s: In): (r: Result<(seq<Byte>, In)>)
    ensures r.Ok? ==> r == Fetch(bin, width, s)
  {
    if s.cursor + width <= |bin| || width == own then Fetch(bin, width, s) else Err(ErrorDataCorrupted)
  }

  function ReadSize(c: Context, bin: Bin, s: In): (r: Result<(nat, In)>)
    ensures r.Ok? ==> s.cursor + SizeWidth(c.flags) <= |bin| && r.value.1 == s.(cursor := s.cursor + SizeWidth(c.flags))
  {
    var (raw, after) :- FetchAs(bin, SizeWidth(c.flags), 8, s);
    Ok((PrimitiveValue(c.bigEndianHost, c.flags.bigEndianFormat, raw), after))
  }

  lemma PrimitiveValueBounded(host: bool, format: bool, s: seq<Byte>)
    ensures PrimitiveValue(host, format, s) < Pow256(|s|)
  {
    FromNativeBounded(host, s);
    ReverseEndiannessIsInvolution(FromNative(host, s), |s|);
  }

  /** deserializeFromAnotherSize: an integer of `width` octets into one of type `target`. */
  function ReadPrimAs(c: Context, bin: Bin, width: nat, target: Scalar, s: In): (r: Result<(int, In)>)
    requires ScalarOk(target) && Fresh(s)
    ensures r.Ok? ==> InRange(target, r.value.0) && Advances(bin, s, r.value.1)
  {
    var origin := target.(width := width);
    if !ScalarOk(origin) then Err(ErrorInternal) else
      var (raw, after) :- FetchAs(bin, width, target.width, s);
      PrimitiveValueBounded(c.bigEndianHost, c.flags.bigEndianFormat, raw);
      var n := FromPattern(origin, PrimitiveValue(c.bigEndianHost, c.flags.bigEndianFormat, raw));
      if InRange(target, n) then Ok((n, after)) else Err(ErrorValueOverflow)
  }

  /** One scalar, with the size tag in front when the message has them. */
  function ReadPrim(c: Context, bin: Bin, target: Scalar, s: In): (r: Result<(int, In)>)
    requires ScalarOk(target) && Fresh(s)
    ensures r.Ok? ==> InRange(target, r.value.0) && Advances(bin, s, r.value.1)
  {
    if Tagged(c, target) then
      var (tag, after) :- Fetch(bin, 1, s);
      ReadPrimAs(c, bin, tag[0], target, after)
    else
      ReadPrimAs(c, bin, target.width, target, s)
  }

  function ReadPrimsAs(c: Context, bin: Bin, width: nat, target: Scalar, n: nat, s: In): (r: Result<(seq<Value>, In)>)
    requires ScalarOk(target) && Fresh(s) && s.cursor <= |bin|
    ensures r.Ok? ==> |r.value.0| == n && Advances(bin, s, r.value.1)
    decreases n
  {
    if n == 0 then Ok(([], s)) else
      var (x, after) :- ReadPrimAs(c, bin, width, target, s);
      var (xs, last) :- ReadPrimsAs(c, bin, width, target, n - 1, after);
      Ok(([Num(x)] + xs, last))
  }

  ghost predicate Readable(c: Context, bin: Bin, t: Type, s: In) {
    ContextOk(c) && TypeOk(t) && Known(c.types, t) && Fresh(s) && s.cursor <= |bin|
  }

  ghost predicate FieldsReadable(c: Context, ts: seq<Type>) {
    ContextOk(c) && forall i | 0 <= i < |ts| :: TypeOk(ts[i]) && Known(c.types, ts[i])
  }

  /** The parts of a value, or the items of a container: where element number `k` of a sequence lives. */
  datatype Row = Row(whole: Place, inline: bool)

  function Spot(row: Row, k: nat): Place {
    if row.inline then Part(row.whole, k) else Item(row.whole, k)
  }

  /** What a pointer announces: what is there already, or a new object. */
  datatype Mark = There(ref: Ref) | New

  /** With the check of recursive pointers an offset, or else an octet that tells a pointer from a null one. */
  function ReadMark(c: Context, bin: Bin, s: In): (r: Result<(Mark, In)>)
    ensures r.Ok? ==> s.cursor < r.value.1.cursor <= |bin|
    ensures r.Ok? ==> r.value.1 == s.(cursor := r.value.1.cursor, places := r.value.1.places)
  {
    if c.flags.checkRecursivePointers then
      var (offset, after) :- ReadSize(c, bin, s);
      if offset == 0 then Ok((There(Null), after))
      else if offset == 1 then Ok((New, after))
      else if after.cursor <= offset then Err(ErrorInternal)
      else
        var ref := if offset in after.places then after.places[offset] else Null;
        Ok((There(ref), after.(places := after.places[offset := ref])))
    else
      var (valid, after) :- Fetch(bin, 1, s);
      Ok((if valid[0] == 0 then There(Null) else New, after))
  }

  /** A new object, registered at the cursor where pointers are checked. */
  function Allocated(c: Context, s: In): In {
    s.(next := s.next + 1,
       places := if c.flags.checkRecursivePointers then s.places[s.cursor := Node(s.next)] else s.places)
  }

  /**
    * One value, read where `at` is; a new pointer makes an object, registers it at the cursor, and reads it there.
    * Without the check of recursive pointers every pointer is new, behind an octet that tells it from a null one.
    */
  function Read(c: Context, bin: Bin, t: Type, at: Place, s: In): (r: Result<(Value, In)>)
    requires Readable(c, bin, t, s)
    ensures r.Ok? ==> Advances(bin, s, r.value.1)
    decreases |bin| - s.cursor, t, 1
  {
    match t
    case Prim(sc) =>
      var (n, after) :- ReadPrim(c, bin, sc, s);
      Ok((Num(n), after))
    case Pointer(name) =>
      ReadPointer(c, bin, name, s)
    case Struct(tags, _, own, fields, _) =>
      if RawBlock(c, t) then
        var (raw, after) :- Fetch(bin, RawSize(t), s);
        Ok((FromRaw(c.bigEndianHost, t, raw), after))
      else if Skipped(c, t) then
        Ok((Held(c, t, at), s))
      else if AnySimplyAssignable(tags) && !own then
        Err(ErrorNotSupportedSerializationSettingsForStruct)
      else
        var (vs, after) :- ReadFields(c, bin, fields, at, 0, s);
        Ok((Items(vs), after))
    case Array(e, n) =>
      var (vs, after) :- ReadArray(c, bin, e, n, Row(at, true), s);
      Ok((Items(vs), after))
    case Vector(e) =>
      var (n, sized) :- ReadSize(c, bin, s);
      var (vs, after) :- ReadArray(c, bin, e, n, Row(at, false), sized);
      Ok((Items(vs), after))
    case String(u) =>
      var (n, sized) :- ReadSize(c, bin, s);
      var (vs, after) :- ReadArray(c, bin, u, n + 1, Row(at, false), sized);
      Ok((Items(vs[..n]), after))
    case Map(e) =>
      var (n, sized) :- ReadSize(c, bin, s);
      ReadEntries(c, bin, e, n, [], [], Row(at, false), 0, sized)
  }

  function ReadPointer(c: Context, bin: Bin, name: nat, s: In): (r: Result<(Value, In)>)
    requires Readable(c, bin, Pointer(name), s)
    ensures r.Ok? ==> Advances(bin, s, r.value.1)
    decreases |bin| - s.cursor, Pointer(name), 0
  {
    if !c.flags.allowUnmanagedPointers then
      Err(ErrorNotSupportedSerializationSettingsForStruct)
    else
      var (mark, after) :- ReadMark(c, bin, s);
      match mark
      case There(ref) => Ok((Link(ref), after))
      case New =>
        var id := after.next;
        var (pointee, last) :- Read(c, bin, c.types[name], Object(id), Allocated(c, after));
        Ok((Link(Node(id)), last.(made := last.made[id := Cell(name, pointee)])))
  }

  /** The fields from number `k` on of the value at `whole`. */
  function ReadFields(c: Context, bin: Bin, ts: seq<Type>, whole: Place, k: nat, s: In): (r: Result<(seq<Value>, In)>)
    requires FieldsReadable(c, ts) && Fresh(s) && s.cursor <= |bin|
    ensures r.Ok? ==> |r.value.0| == |ts| && Advances(bin, s, r.value.1)
    decreases |bin| - s.cursor, ts, 0
  {
    if ts == [] then Ok(([], s)) else
      var (v, next) :- Read(c, bin, ts[0], Part(whole, k), s);
      var (vs, last) :- ReadFields(c, bin, ts[1..], whole, k + 1, next);
      Ok(([v] + vs, last))
  }

  function ReadArray(c: Context, bin: Bin, e: Type, n: nat, row: Row, s: In): (r: Result<(seq<Value>, In)>)
    requires Readable(c, bin, e, s)
    ensures r.Ok? ==> |r.value.0| == n && Advances(bin, s, r.value.1)
    decreases |bin| - s.cursor, e, n + 2
  {
    if e.Struct? && e.tags.empty then
      Ok((seq(n, _ => Default(e)), s))
    else if RawBlock(c, e) then
      if e.Prim? && Tagged(c, e.scalar) then
        var (tag, after) :- Fetch(bin, 1, s);
        if tag[0] != e.scalar.width
        then ReadPrimsAs(c, bin, tag[0], e.scalar, n, after)
        else ReadBlock(c, bin, e, n, after)
      else
        ReadBlock(c, bin, e, n, s)
    else
      ReadElems(c, bin, e, n, c.flags.checkRecursivePointers, row, 0, s)
  }

  function ReadBlock(c: Context, bin: Bin, e: Type, n: nat, s: In): (r: Result<(seq<Value>, In)>)
    requires TypeOk(e) && Plain(e) && Fresh(s)
    ensures r.Ok? ==> |r.value.0| == n && Advances(bin, s, r.value.1)
  {
    var (raw, after) :- Fetch(bin, BlockSize(RawSize(e), n), s);
    Ok((FromRawElems(c.bigEndianHost, e, n, raw), after))
  }

  /** An array element is registered at the cursor; the first part of an object has the object's own address. */
  function NotedIn(s: In, register: bool, at: Place): In {
    if !register then s
    else s.(places := s.places[s.cursor := if Lead(at).Node? then Lead(at) else Element(s.cursor)])
  }

  /** The elements from number `k` on. */
  function ReadElems(c: Context, bin: Bin, e: Type, n: nat, register: bool, row: Row, k: nat,
                     s: In): (r: Result<(seq<Value>, In)>)
    requires Readable(c, bin, e, s)
    ensures r.Ok? ==> |r.value.0| == n && Advances(bin, s, r.value.1)
    decreases |bin| - s.cursor, e, n + 1
  {
    if n == 0 then Ok(([], s)) else
      var noted := NotedIn(s, register, Spot(row, k));
      var (v, next) :- Read(c, bin, e, Spot(row, k), noted);
      var (vs, last) :- ReadElems(c, bin, e, n - 1, register, row, k + 1, next);
      Ok(([v] + vs, last))
  }

  /** std::map: entry by entry; `got` are those inserted, `away` those turned away by insert, their key being there. */
  function ReadEntries(c: Context, bin: Bin, e: Type, n: nat, got: seq<Value>, away: seq<Value>, row: Row, k: nat,
                       s: In): (r: Result<(Value, In)>)
    requires Readable(c, bin, e, s)
    ensures r.Ok? ==> Advances(bin, s, r.value.1)
    decreases |bin| - s.cursor, e, n + 1
  {
    if n == 0 then Ok((Items(got), s.(turned := s.turned + away))) else
      var (v, next) :- Read(c, bin, e, Spot(row, k), s);
      ReadEntries(c, bin, e, n - 1, Insert(got, v), away + TurnedBy(got, v), row, k + 1, next)
  }

  predicate SameKey(a: Value, b: Value) {
    IsEntry(a) && IsEntry(b) && a.items[0] == b.items[0]
  }

  predicate Present(entries: seq<Value>, v: Value) {
    exists i | 0 <= i < |entries| :: SameKey(entries[i], v)
  }

  function Insert(entries: seq<Value>, v: Value): seq<Value> {
    if Present(entries, v) then entries else entries + [v]
  }

  function TurnedBy(entries: seq<Value>, v: Value): seq<Value> {
    if Present(entries, v) then [v] else []
  }

  /** The map that results when `vs` are inserted one after the other. */
  function InsertAll(entries: seq<Value>, vs: seq<Value>): seq<Value>
    decreases |vs|
  {
    if vs == [] then entries else InsertAll(Insert(entries, vs[0]), vs[1..])
  }

  /** Those of `vs` that are turned away on the way. */
  function TurnedAll(entries: seq<Value>, vs: seq<Value>): seq<Value>
    decreases |vs|
  {
    if vs == [] then [] else TurnedBy(entries, vs[0]) + TurnedAll(Insert(entries, vs[0]), vs[1..])
  }
}
