/** BodyProcessor and rw.h, the deserializing half: a context that is read from step by step. */
module Deserializer {
  import opened Status
  import opened Bytes
  import opened Types
  import opened Layout
  import opened Reader
  import opened Steps

  /** What a method reports and hands out, and where it leaves the context, when the specification says `want`. */
  ghost predicate Reports<X>(want: Result<(X, In)>, status: Status, x: X, after: In) {
    match want
    case Ok(p) => status == NoError && x == p.0 && after == p.1
    case Err(e) => status == e && status != NoError
  }

  /** `vs` has been read already; `tail` is what the rest gives. */
  function PrependAll(vs: seq<Value>, tail: Result<(seq<Value>, In)>): Result<(seq<Value>, In)> {
    var (ws, last) :- tail;
    Ok((vs + ws, last))
  }

  lemma PrependAllStep(want: Result<(seq<Value>, In)>, vs: seq<Value>, v: Value, s: In, here: Result<(seq<Value>, In)>,
                       tail: Result<(seq<Value>, In)>)
    requires want == PrependAll(vs, here) && here == Prepend(Ok((v, s)), tail)
    ensures want == PrependAll(vs + [v], tail)
  {
    if tail.Ok? {
      assert vs + ([v] + tail.value.0) == (vs + [v]) + tail.value.0;
    }
  }

  lemma PrependNone(tail: Result<(seq<Value>, In)>)
    ensures PrependAll([], tail) == tail
  {
    if tail.Ok? {
      assert [] + tail.value.0 == tail.value.0;
    }
  }

  lemma PrependLast(vs: seq<Value>, s: In)
    ensures PrependAll(vs, Ok(([], s))) == Ok((vs, s))
  {
    assert vs + [] == vs;
  }

  // ---------------------------------------------------------------- loops in progress

  /** `vs` and what the elements behind them give make what reading the array has to give. */
  ghost predicate ElemsLeft(c: Context, bin: Bin, e: Type, n: nat, register: bool, row: Row, vs: seq<Value>, s: In,
                            want: Result<(seq<Value>, In)>) {
    && |vs| <= n && Readable(c, bin, e, s)
    && want == PrependAll(vs, ReadElems(c, bin, e, n - |vs|, register, row, |vs|, s))
  }

  lemma ElemsLeftStep(c: Context, bin: Bin, e: Type, n: nat, register: bool, row: Row, vs: seq<Value>, s: In,
                      want: Result<(seq<Value>, In)>)
    requires ElemsLeft(c, bin, e, n, register, row, vs, s, want) && |vs| < n
    ensures Readable(c, bin, e, NotedIn(s, register, Spot(row, |vs|)))
    ensures var head := Read(c, bin, e, Spot(row, |vs|), NotedIn(s, register, Spot(row, |vs|)));
            if head.Ok?
            then ElemsLeft(c, bin, e, n, register, row, vs + [head.value.0], head.value.1, want)
            else want == Err(head.error)
  {
    var k, m := |vs|, n - |vs|;
    var noted := NotedIn(s, register, Spot(row, k));
    ReadElemsUnfolds(c, bin, e, m, register, row, k, s, noted);
    var head := Read(c, bin, e, Spot(row, k), noted);
    if head.Ok? {
      PrependAllStep(want, vs, head.value.0, head.value.1, ReadElems(c, bin, e, m, register, row, k, s),
                     ReadElems(c, bin, e, m - 1, register, row, k + 1, head.value.1));
    }
  }

  lemma ElemsLeftBegin(c: Context, bin: Bin, e: Type, n: nat, register: bool, row: Row, s: In)
    requires Readable(c, bin, e, s)
    ensures ElemsLeft(c, bin, e, n, register, row, [], s, ReadElems(c, bin, e, n, register, row, 0, s))
  {
    PrependNone(ReadElems(c, bin, e, n, register, row, 0, s));
  }

  lemma ElemsLeftEnd(c: Context, bin: Bin, e: Type, n: nat, register: bool, row: Row, vs: seq<Value>, s: In,
                     want: Result<(seq<Value>, In)>)
    requires ElemsLeft(c, bin, e, n, register, row, vs, s, want) && |vs| == n
    ensures want == Ok((vs, s))
  {
    PrependLast(vs, s);
  }

  /** The same for a map: the entries from number `k` on, with those got and those turned away so far. */
  ghost predicate EntriesLeft(c: Context, bin: Bin, e: Type, n: nat, got: seq<Value>, away: seq<Value>, row: Row,
                              k: nat, s: In, want: Result<(Value, In)>) {
    k <= n && Readable(c, bin, e, s) && want == ReadEntries(c, bin, e, n - k, got, away, row, k, s)
  }

  lemma EntriesLeftStep(c: Context, bin: Bin, e: Type, n: nat, got: seq<Value>, away: seq<Value>, row: Row, k: nat,
                        s: In, want: Result<(Value, In)>)
    requires EntriesLeft(c, bin, e, n, got, away, row, k, s, want) && k < n
    ensures var head := Read(c, bin, e, Spot(row, k), s);
            if head.Ok?
            then EntriesLeft(c, bin, e, n, Insert(got, head.value.0), away + TurnedBy(got, head.value.0), row, k + 1,
                             head.value.1, want)
            else want == Err(head.error)
  {
    ReadEntriesUnfolds(c, bin, e, n - k, got, away, row, k, s);
  }

  lemma EntriesLeftEnd(c: Context, bin: Bin, e: Type, n: nat, got: seq<Value>, away: seq<Value>, row: Row, s: In,
                       want: Result<(Value, In)>)
    requires EntriesLeft(c, bin, e, n, got, away, row, n, s, want)
    ensures want == Ok((Items(got), s.(turned := s.turned + away)))
  {
  }

  /** The same for integers of another width. */
  ghost predicate ResizedLeft(c: Context, bin: Bin, width: nat, b: Scalar, n: nat, vs: seq<Value>, s: In,
                              want: Result<(seq<Value>, In)>) {
    && |vs| <= n && ScalarOk(b) && Fresh(s) && s.cursor <= |bin|
    && want == PrependAll(vs, ReadPrimsAs(c, bin, width, b, n - |vs|, s))
  }

  lemma ResizedLeftStep(c: Context, bin: Bin, width: nat, b: Scalar, n: nat, vs: seq<Value>, s: In,
                        want: Result<(seq<Value>, In)>)
    requires ResizedLeft(c, bin, width, b, n, vs, s, want) && |vs| < n
    ensures var head := ReadPrimAs(c, bin, width, b, s);
            if head.Ok?
            then ResizedLeft(c, bin, width, b, n, vs + [Num(head.value.0)], head.value.1, want)
            else want == Err(head.error)
  {
    var m := n - |vs|;
    ResizedUnfolds(c, bin, width, b, m, s);
    var head := ReadPrimAs(c, bin, width, b, s);
    if head.Ok? {
      PrependAllStep(want, vs, Num(head.value.0), head.value.1, ReadPrimsAs(c, bin, width, b, m, s),
                     ReadPrimsAs(c, bin, width, b, m - 1, head.value.1));
    }
  }

  /** context::DData: the binary container and its cursor, the pointers map and the objects made for pointers. */
  class DData {
    const context: Context
    const bin: Bin
    var cursor: nat
    var made: Heap
    var next: nat
    var places: map<nat, Ref>
    ghost var turned: seq<Value>

    ghost function State(): In
      reads this
    {
      In(cursor, made, next, places, turned)
    }

    constructor (context: Context, bin: Bin, start: In)
      ensures this.context == context && this.bin == bin && State() == start
    {
      this.context := context;
      this.bin := bin;
      cursor, made, next, places := start.cursor, start.made, start.next, start.places;
      turned := start.turned;
    }

    method ReadRawData(n: nat) returns (status: Status, raw: seq<Byte>)
      modifies this`cursor
      ensures Reports(Fetch(bin, n, old(State())), status, raw, State())
    {
      if cursor + n > |bin| {
        return ErrorOverflow, [];
      }
      raw := bin[cursor..cursor + n];
      cursor := cursor + n;
      status := NoError;
    }

    /** The octets as this host understands them, turned around when its byte order is not the message's. */
    method ReadPrimitive(width: nat) returns (status: Status, n: nat)
      modifies this`cursor
      ensures status == if old(cursor) + width <= |bin| then NoError else ErrorOverflow
      ensures status == NoError ==>
                && cursor == old(cursor) + width
                && n == FromNative(context.flags.bigEndianFormat, bin[old(cursor)..cursor])
                && n == PrimitiveValue(context.bigEndianHost, context.flags.bigEndianFormat, bin[old(cursor)..cursor])
    {
      n := 0;
      var raw;
      status, raw := ReadRawData(width);
      if status == NoError {
        n := FromNative(context.bigEndianHost, raw);
        if context.bigEndianHost != context.flags.bigEndianFormat && width > 1 {
          n := ReverseEndianness(n, width);
        }
        PrimitiveValueIsNative(context.bigEndianHost, context.flags.bigEndianFormat, raw);
      }
    }

    method DeserializeSizeT() returns (status: Status, n: nat)
      modifies this`cursor
      ensures Reports(ReadSize(context, bin, old(State())), status, n, State())
    {
      var width := if context.flags.bitness32 then 4 else 8;
      status, n := ReadPrimitive(width);
      if status == ErrorOverflow && width != 8 {
        status := ErrorDataCorrupted;
      }
    }

    method DeserializeFromAnotherSize(width: nat, target: Scalar) returns (status: Status, n: int)
      requires ScalarOk(target) && Fresh(State())
      modifies this`cursor
      ensures Reports(ReadPrimAs(context, bin, width, target, old(State())), status, n, State())
    {
      n := 0;
      var origin := target.(width := width);
      if !ScalarOk(origin) {
        return ErrorInternal, n;
      }
      var pattern;
      status, pattern := ReadPrimitive(width);
      if status != NoError {
        status := if width == target.width then status else ErrorDataCorrupted;
        return;
      }
      PrimitiveValueBounded(context.bigEndianHost, context.flags.bigEndianFormat, bin[old(cursor)..cursor]);
      n := FromPattern(origin, pattern);
      if !InRange(target, n) {
        status := ErrorValueOverflow;
      }
    }

    method DeserializeScalar(target: Scalar) returns (status: Status, n: int)
      requires ScalarOk(target) && Fresh(State())
      modifies this`cursor
      ensures Reports(ReadPrim(context, bin, target, old(State())), status, n, State())
    {
      if !target.fixed && context.flags.sizeOfIntegersMayBeNotEqual {
        var tag;
        status, tag := ReadRawData(1);
        if status != NoError {
          return status, 0;
        }
        status, n := DeserializeFromAnotherSize(tag[0], target);
      } else {
        status, n := DeserializeFromAnotherSize(target.width, target);
      }
    }

    /** getPointerFromMap: a null, the place registered at the offset, or the announcement of a new object. */
    method GetPointerFromMap() returns (status: Status, ref: Ref, newPointer: bool)
      requires context.flags.checkRecursivePointers
      modifies this`cursor, this`places
      ensures Reports(ReadMark(context, bin, old(State())), status, if newPointer then New else There(ref), State())
    {
      newPointer, ref := false, Null;
      var offset;
      status, offset := DeserializeSizeT();
      if status != NoError || offset == 0 {
        return;
      }
      if offset == 1 {
        newPointer := true;
      } else if offset >= cursor {
        status := ErrorInternal;
      } else {
        if offset !in places {
          places := places[offset := Null];
        }
        ref := places[offset];
        assert places == places[offset := ref];
      }
    }

    /** What stands in front of a pointee, with the check of recursive pointers or without. */
    method DeserializeMark() returns (status: Status, ref: Ref, newPointer: bool)
      modifies this`cursor, this`places
      ensures Reports(ReadMark(context, bin, old(State())), status, if newPointer then New else There(ref), State())
    {
      if context.flags.checkRecursivePointers {
        status, ref, newPointer := GetPointerFromMap();
      } else {
        var valid;
        status, valid := ReadRawData(1);
        ref, newPointer := Null, status == NoError && valid[0] != 0;
      }
    }

    /** allocateAndDefaultConstruct: an object of its own, registered where its value starts if pointers are checked. */
    method Allocate() returns (id: nat)
      modifies this`next, this`places
      ensures id == old(next) && State() == Allocated(context, old(State()))
    {
      id := next;
      next := next + 1;
      if context.flags.checkRecursivePointers {
        places := places[cursor := Node(id)];
      }
    }

    method DeserializeValue(t: Type, at: Place) returns (status: Status, v: Value)
      requires Readable(context, bin, t, State())
      modifies this
      ensures Fresh(State()) && old(next) <= next
      ensures Reports(Read(context, bin, t, at, old(State())), status, v, State())
      decreases |bin| - cursor, t, 1
    {
      match t
      case Prim(s) =>
        var n;
        status, n := DeserializeScalar(s);
        v := Num(n);
      case Pointer(name) =>
        status, v := DeserializePointer(name);
      case Struct(_, _, _, _, _) =>
        status, v := DeserializeStruct(t, at);
      case Array(e, n) =>
        var vs;
        status, vs := DeserializeArray(e, n, Row(at, true));
        v := Items(vs);
      case Vector(e) =>
        status, v := DeserializeVector(e, at);
      case String(u) =>
        status, v := DeserializeString(u, at);
      case Map(e) =>
        status, v := DeserializeMap(e, at);
    }

    method DeserializePointer(name: nat) returns (status: Status, v: Value)
      requires Readable(context, bin, Pointer(name), State())
      modifies this
      ensures Fresh(State()) && old(next) <= next
      ensures Reports(ReadPointer(context, bin, name, old(State())), status, v, State())
      decreases |bin| - cursor, Pointer(name), 0
    {
      v := Link(Null);
      if !context.flags.allowUnmanagedPointers {
        return ErrorNotSupportedSerializationSettingsForStruct, v;
      }
      var ref, newPointer;
      status, ref, newPointer := DeserializeMark();
      if status != NoError || !newPointer {
        return status, Link(ref);
      }
      var id := Allocate();
      var pointee;
      status, pointee := DeserializeValue(context.types[name], Object(id));
      v := Link(Node(id));
      made := made[id := Cell(name, pointee)];
    }

    method DeserializeStruct(t: Type, at: Place) returns (status: Status, v: Value)
      requires t.Struct? && Readable(context, bin, t, State())
      modifies this
      ensures Fresh(State()) && old(next) <= next
      ensures Reports(Read(context, bin, t, at, old(State())), status, v, State())
      decreases |bin| - cursor, t, 0
    {
      v := Held(context, t, at);
      if RawBlock(context, t) {
        var raw;
        status, raw := ReadRawData(RawSize(t));
        if status == NoError {
          v := FromRaw(context.bigEndianHost, t, raw);
        }
      } else if Skipped(context, t) {
        status := NoError;
      } else if AnySimplyAssignable(t.tags) && !t.hasFunctions {
        status := ErrorNotSupportedSerializationSettingsForStruct;
      } else {
        var vs;
        status, vs := DeserializeFields(t.fields, at);
        v := Items(vs);
      }
    }

    method DeserializeVector(e: Type, at: Place) returns (status: Status, v: Value)
      requires Readable(context, bin, Vector(e), State())
      modifies this
      ensures Fresh(State()) && old(next) <= next
      ensures Reports(Read(context, bin, Vector(e), at, old(State())), status, v, State())
      decreases |bin| - cursor, Vector(e), 0
    {
      v := Items([]);
      var n;
      status, n := DeserializeSizeT();
      if status == NoError {
        var vs;
        status, vs := DeserializeArray(e, n, Row(at, false));
        v := Items(vs);
      }
    }

    method DeserializeString(u: Type, at: Place) returns (status: Status, v: Value)
      requires Readable(context, bin, String(u), State())
      modifies this
      ensures Fresh(State()) && old(next) <= next
      ensures Reports(Read(context, bin, String(u), at, old(State())), status, v, State())
      decreases |bin| - cursor, String(u), 0
    {
      v := Items([]);
      var n;
      status, n := DeserializeSizeT();
      if status == NoError {
        ReadStringUnfolds(context, bin, String(u), n, at, old(State()), State());
        var vs;
        status, vs := DeserializeArray(u, n + 1, Row(at, false));
        if status == NoError {
          v := Items(vs[..n]);
        }
      }
    }

    method DeserializeMap(e: Type, at: Place) returns (status: Status, v: Value)
      requires Readable(context, bin, Map(e), State())
      modifies this
      ensures Fresh(State()) && old(next) <= next
      ensures Reports(Read(context, bin, Map(e), at, old(State())), status, v, State())
      decreases |bin| - cursor, Map(e), 0
    {
      v := Items([]);
      var n;
      status, n := DeserializeSizeT();
      if status == NoError {
        status, v := DeserializeEntries(e, n, Row(at, false));
      }
    }

    /** Entry number `k` of a map, of which `want` is the outcome. */
    method DeserializeEntry(e: Type, n: nat, got: seq<Value>, ghost away: seq<Value>, row: Row, k: nat,
                            ghost want: Result<(Value, In)>)
        returns (status: Status, more: seq<Value>, ghost gone: seq<Value>)
      requires k < n && EntriesLeft(context, bin, e, n, got, away, row, k, State(), want)
      modifies this
      ensures Fresh(State()) && old(next) <= next
      ensures status == NoError ==> old(cursor) <= cursor
      ensures if status == NoError
              then EntriesLeft(context, bin, e, n, more, gone, row, k + 1, State(), want)
              else want == Err(status)
      decreases |bin| - cursor, e, 2
    {
      EntriesLeftStep(context, bin, e, n, got, away, row, k, State(), want);
      var v;
      status, v := DeserializeValue(e, Spot(row, k));
      more, gone := Insert(got, v), away + TurnedBy(got, v);
    }

    method DeserializeEntries(e: Type, n: nat, row: Row) returns (status: Status, v: Value)
      requires Readable(context, bin, e, State())
      modifies this
      ensures Fresh(State()) && old(next) <= next
      ensures Reports(ReadEntries(context, bin, e, n, [], [], row, 0, old(State())), status, v, State())
      decreases |bin| - cursor, e, n + 2
    {
      var got: seq<Value> := [];
      ghost var away: seq<Value> := [];
      v := Items(got);
      ghost var want := ReadEntries(context, bin, e, n, got, away, row, 0, State());
      for k := 0 to n
        invariant Fresh(State()) && old(next) <= next && old(cursor) <= cursor
        invariant EntriesLeft(context, bin, e, n, got, away, row, k, State(), want)
      {
        status, got, away := DeserializeEntry(e, n, got, away, row, k, want);
        if status != NoError {
          return;
        }
      }
      EntriesLeftEnd(context, bin, e, n, got, away, row, State(), want);
      turned := turned + away;
      return NoError, Items(got);
    }

    method DeserializeFields(ts: seq<Type>, whole: Place) returns (status: Status, vs: seq<Value>)
      requires FieldsReadable(context, ts) && Fresh(State()) && cursor <= |bin|
      modifies this
      ensures Fresh(State()) && old(next) <= next
      ensures Reports(ReadFields(context, bin, ts, whole, 0, old(State())), status, vs, State())
      decreases |bin| - cursor, ts, 0
    {
      vs := [];
      ghost var want := ReadFields(context, bin, ts, whole, 0, State());
      PrependNone(want);
      for i := 0 to |ts|
        invariant Fresh(State()) && old(cursor) <= cursor <= |bin|
        invariant old(next) <= next
        invariant want == PrependAll(vs, ReadFields(context, bin, ts[i..], whole, i, State()))
      {
        ghost var here := ReadFields(context, bin, ts[i..], whole, i, State());
        ReadFieldsUnfolds(context, bin, ts[i..], whole, i, State());
        var v;
        status, v := DeserializeValue(ts[i], Part(whole, i));
        if status != NoError {
          return;
        }
        assert ts[i..][1..] == ts[i + 1..];
        PrependAllStep(want, vs, v, State(), here, ReadFields(context, bin, ts[i + 1..], whole, i + 1, State()));
        vs := vs + [v];
      }
      PrependLast(vs, State());
      status := NoError;
    }

    /** deserialize(ctx, n, p): nothing, one raw block, integers of another width, or element by element. */
    method DeserializeArray(e: Type, n: nat, row: Row) returns (status: Status, vs: seq<Value>)
      requires Readable(context, bin, e, State())
      modifies this
      ensures Fresh(State()) && old(next) <= next
      ensures Reports(ReadArray(context, bin, e, n, row, old(State())), status, vs, State())
      decreases |bin| - cursor, e, n + 3
    {
      if e.Struct? && e.tags.empty {
        return NoError, seq(n, _ => Default(e));
      }
      if RawBlock(context, e) {
        if e.Prim? && !e.scalar.fixed && context.flags.sizeOfIntegersMayBeNotEqual {
          var tag;
          status, tag := ReadRawData(1);
          if status != NoError {
            return status, [];
          }
          if tag[0] != e.scalar.width {
            status, vs := DeserializeResized(tag[0], e.scalar, n);
            return;
          }
        }
        status, vs := DeserializeBlock(e, n);
      } else {
        status, vs := DeserializeElems(e, n, context.flags.checkRecursivePointers, row);
      }
    }

    method DeserializeBlock(e: Type, n: nat) returns (status: Status, vs: seq<Value>)
      requires TypeOk(e) && Plain(e) && Fresh(State())
      modifies this`cursor
      ensures Reports(ReadBlock(context, bin, e, n, old(State())), status, vs, State())
    {
      vs := [];
      var raw;
      status, raw := ReadRawData(BlockSize(RawSize(e), n));
      if status == NoError {
        vs := FromRawElems(context.bigEndianHost, e, n, raw);
      }
    }

    method DeserializeResized(width: nat, target: Scalar, n: nat) returns (status: Status, vs: seq<Value>)
      requires ScalarOk(target) && Fresh(State()) && cursor <= |bin|
      modifies this`cursor
      ensures Reports(ReadPrimsAs(context, bin, width, target, n, old(State())), status, vs, State())
    {
      vs := [];
      ghost var want := ReadPrimsAs(context, bin, width, target, n, State());
      PrependNone(want);
      while |vs| < n
        invariant ResizedLeft(context, bin, width, target, n, vs, State(), want)
      {
        ResizedLeftStep(context, bin, width, target, n, vs, State(), want);
        var x;
        status, x := DeserializeFromAnotherSize(width, target);
        if status != NoError {
          return;
        }
        vs := vs + [Num(x)];
      }
      PrependLast(vs, State());
      status := NoError;
    }

    /** The next element of an array, of which `want` is the outcome. */
    method DeserializeElement(e: Type, n: nat, register: bool, row: Row, vs: seq<Value>,
                              ghost want: Result<(seq<Value>, In)>)
        returns (status: Status, ws: seq<Value>)
      requires |vs| < n && ElemsLeft(context, bin, e, n, register, row, vs, State(), want)
      modifies this
      ensures Fresh(State()) && old(next) <= next
      ensures status == NoError ==> old(cursor) <= cursor && |ws| == |vs| + 1
      ensures if status == NoError
              then ElemsLeft(context, bin, e, n, register, row, ws, State(), want)
              else want == Err(status)
      decreases |bin| - cursor, e, 2
    {
      var at := Spot(row, |vs|);
      ElemsLeftStep(context, bin, e, n, register, row, vs, State(), want);
      if register {
        places := places[cursor := if Lead(at).Node? then Lead(at) else Element(cursor)];
      }
      var v;
      status, v := DeserializeValue(e, at);
      ws := vs + [v];
    }

    method DeserializeElems(e: Type, n: nat, register: bool, row: Row) returns (status: Status, vs: seq<Value>)
      requires Readable(context, bin, e, State())
      modifies this
      ensures Fresh(State()) && old(next) <= next
      ensures Reports(ReadElems(context, bin, e, n, register, row, 0, old(State())), status, vs, State())
      decreases |bin| - cursor, e, n + 2
    {
      vs := [];
      ghost var want := ReadElems(context, bin, e, n, register, row, 0, State());
      ElemsLeftBegin(context, bin, e, n, register, row, State());
      while |vs| < n
        invariant Fresh(State()) && old(next) <= next && old(cursor) <= cursor
        invariant ElemsLeft(context, bin, e, n, register, row, vs, State(), want)
        decreases n - |vs|
      {
        status, vs := DeserializeElement(e, n, register, row, vs, want);
        if status != NoError {
          return;
        }
      }
      ElemsLeftEnd(context, bin, e, n, register, row, vs, State(), want);
      status := NoError;
    }
  }

  lemma ResizedUnfolds(r: Context, bin: Bin, width: nat, b: Scalar, n: nat, s: In)
    requires 0 < n && ScalarOk(b) && Fresh(s) && s.cursor <= |bin|
    ensures var head := ReadPrimAs(r, bin, width, b, s);
            ReadPrimsAs(r, bin, width, b, n, s) ==
            if head.Ok?
            then Prepend(Ok((Num(head.value.0), head.value.1)), ReadPrimsAs(r, bin, width, b, n - 1, head.value.1))
            else Err(head.error)
  {
  }

  /** Turning the number around is reading the octets in the message's order. */
  lemma PrimitiveValueIsNative(host: bool, format: bool, s: seq<Byte>)
    ensures PrimitiveValue(host, format, s) == FromNative(format, s)
  {
    var n := FromNative(host, s);
    FromNativeBounded(host, s);
    LittleEndianEncodes(if host then Reversed(s) else s);
    ReversedTwice(s);
    if host != format && |s| > 1 {
      assert LittleEndian(n, |s|) == if host then Reversed(s) else s;
    } else if host != format {
      assert Reversed(s) == s;
    }
  }
}
