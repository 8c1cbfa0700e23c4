/** What the two specifications do, one step at a time. */
module Steps {
  import opened Status
  import opened Types
  import opened Writer
  import opened Reader

  // ---------------------------------------------------------------- the writer

  lemma WriteElemsUnfolds(c: Context, heap: Heap, e: Type, vs: seq<Value>, register: bool, lead: Ref, o: Out)
    requires Writable(c, heap, e) && ElemsTyped(e, vs, heap) && vs != [] && AtLead(lead, o)
    ensures HasType(e, vs[0], heap) && ElemsTyped(e, vs[1..], heap) && AtLead(lead, Noted(o, register, lead))
    ensures var next := Write(c, heap, e, vs[0], lead, Noted(o, register, lead));
            WriteElems(c, heap, e, vs, register, lead, o) ==
            if next.Ok? then WriteElems(c, heap, e, vs[1..], register, Null, next.value) else next
  {
  }

  lemma WriteFieldsUnfolds(c: Context, heap: Heap, ts: seq<Type>, vs: seq<Value>, lead: Ref, o: Out)
    requires FieldsWritable(c, heap, ts, vs) && ts != [] && AtLead(lead, o)
    ensures FieldsWritable(c, heap, ts[1..], vs[1..])
    ensures var next := Write(c, heap, ts[0], vs[0], lead, o);
            WriteFields(c, heap, ts, vs, lead, o) ==
            if next.Ok? then WriteFields(c, heap, ts[1..], vs[1..], Null, next.value) else next
  {
  }

  /** The writer at a new pointee, and the reader. */
  function Entered(w: Context, a: nat, o: Out): Out
    requires WriteSize(w, 1, o).Ok?
  {
    var marked := WriteSize(w, 1, o).value;
    marked.(seen := marked.seen[Node(a) := |marked.bin|])
  }

  function Arrived(w: Context, o: Out, s: In): In
    requires WriteSize(w, 1, o).Ok?
  {
    var cursor := |WriteSize(w, 1, o).value.bin|;
    s.(cursor := cursor, next := s.next + 1, places := s.places[cursor := Node(s.next)])
  }

  lemma WriteNewUnfolds(c: Context, heap: Heap, name: nat, v: Value, lead: Ref, o: Out)
    requires Writable(c, heap, Pointer(name)) && HasType(Pointer(name), v, heap) && AtLead(lead, o)
    requires c.flags.allowUnmanagedPointers && v.ref.Node? && v.ref !in o.seen && WriteSize(c, 1, o).Ok?
    ensures Writable(c, heap, c.types[name]) && HasType(c.types[name], heap[v.ref.id].value, heap)
    ensures AtLead(v.ref, Entered(c, v.ref.id, o))
    ensures Write(c, heap, Pointer(name), v, lead, o) ==
            Write(c, heap, c.types[name], heap[v.ref.id].value, v.ref, Entered(c, v.ref.id, o))
  {
  }

  // ---------------------------------------------------------------- the reader

  /** How a sequence read is put together from its first value and the others. */
  function Prepend(head: Result<(Value, In)>, tail: Result<(seq<Value>, In)>): Result<(seq<Value>, In)> {
    var (v, _) :- head;
    var (vs, last) :- tail;
    Ok(([v] + vs, last))
  }

  /** A sequence read as one value. */
  function Wrapped(got: Result<(seq<Value>, In)>): Result<(Value, In)> {
    var (vs, last) :- got;
    Ok((Items(vs), last))
  }

  lemma ReadPrimUnfolds(r: Context, bin: Bin, t: Type, at: Place, s: In)
    requires Readable(r, bin, t, s) && t.Prim?
    ensures var got := ReadPrim(r, bin, t.scalar, s);
            Read(r, bin, t, at, s) == if got.Ok? then Ok((Num(got.value.0), got.value.1)) else Err(got.error)
  {
  }

  /** A null pointer or a back reference. */
  lemma ReadMarker(r: Context, bin: Bin, t: Type, at: Place, s: In, offset: nat, after: In)
    requires Readable(r, bin, t, s) && t.Pointer? && r.flags.allowUnmanagedPointers && r.flags.checkRecursivePointers
    requires ReadSize(r, bin, s) == Ok((offset, after)) && offset != 1 && offset < after.cursor
    ensures Read(r, bin, t, at, s) ==
            if offset == 0 then Ok((Link(Null), after)) else
              var ref := if offset in after.places then after.places[offset] else Null;
              Ok((Link(ref), after.(places := after.places[offset := ref])))
  {
  }

  /** A pointee met for the first time. */
  lemma ReadNew(r: Context, bin: Bin, t: Type, at: Place, s: In, after: In, entered: In)
    requires Readable(r, bin, t, s) && t.Pointer? && r.flags.allowUnmanagedPointers && r.flags.checkRecursivePointers
    requires ReadSize(r, bin, s) == Ok((1, after))
    requires entered == after.(next := after.next + 1, places := after.places[after.cursor := Node(after.next)])
    ensures Readable(r, bin, r.types[t.target], entered)
    ensures var pointee := Read(r, bin, r.types[t.target], Object(after.next), entered);
            && (pointee.Ok? ==> Advances(bin, entered, pointee.value.1))
            && Read(r, bin, t, at, s) ==
               if pointee.Ok?
               then Ok((Link(Node(after.next)),
                        pointee.value.1.(made := pointee.value.1.made[after.next := Cell(t.target, pointee.value.0)])))
               else Err(pointee.error)
  {
  }

  /** An array of fixed size, or a vector of `n` items once its size has been read. */
  lemma ReadCountedUnfolds(r: Context, bin: Bin, t: Type, n: nat, at: Place, s: In, after: In)
    requires Readable(r, bin, t, s)
    requires (t.Array? && n == t.size && after == s) || (t.Vector? && ReadSize(r, bin, s) == Ok((n, after)))
    ensures Readable(r, bin, t.elem, after)
    ensures Read(r, bin, t, at, s) == Wrapped(ReadArray(r, bin, t.elem, n, Row(at, t.Array?), after))
  {
  }

  lemma ReadStringUnfolds(r: Context, bin: Bin, t: Type, n: nat, at: Place, s: In, after: In)
    requires Readable(r, bin, t, s) && t.String? && ReadSize(r, bin, s) == Ok((n, after))
    ensures Readable(r, bin, t.unit, after)
    ensures var got := ReadArray(r, bin, t.unit, n + 1, Row(at, false), after);
            Read(r, bin, t, at, s) == if got.Ok? then Ok((Items(got.value.0[..n]), got.value.1)) else Err(got.error)
  {
  }

  lemma ReadMapUnfolds(r: Context, bin: Bin, t: Type, n: nat, at: Place, s: In, after: In)
    requires Readable(r, bin, t, s) && t.Map? && ReadSize(r, bin, s) == Ok((n, after))
    ensures Readable(r, bin, t.entry, after)
    ensures Read(r, bin, t, at, s) ==
            AllInserted(ReadElems(r, bin, t.entry, n, false, Row(at, false), 0, after), [], [])
  {
    EntriesAreElems(r, bin, t.entry, n, [], [], Row(at, false), 0, after);
  }

  lemma ReadEntriesUnfolds(r: Context, bin: Bin, e: Type, n: nat, got: seq<Value>, away: seq<Value>, row: Row, k: nat,
                           s: In)
    requires 0 < n && Readable(r, bin, e, s)
    ensures var head := Read(r, bin, e, Spot(row, k), s);
            && (head.Ok? ==> Readable(r, bin, e, head.value.1))
            && ReadEntries(r, bin, e, n, got, away, row, k, s) ==
               if head.Ok?
               then ReadEntries(r, bin, e, n - 1, Insert(got, head.value.0), away + TurnedBy(got, head.value.0), row,
                                k + 1, head.value.1)
               else Err(head.error)
  {
  }

  lemma ReadNoEntries(r: Context, bin: Bin, e: Type, got: seq<Value>, away: seq<Value>, row: Row, k: nat, s: In)
    requires Readable(r, bin, e, s)
    ensures ReadEntries(r, bin, e, 0, got, away, row, k, s) == Ok((Items(got), s.(turned := s.turned + away)))
    ensures ReadElems(r, bin, e, 0, false, row, k, s) == Ok(([], s))
  {
  }

  /** The map made of entries that have been read one after the other, and the book kept of those turned away. */
  function AllInserted(elems: Result<(seq<Value>, In)>, got: seq<Value>, away: seq<Value>): Result<(Value, In)> {
    var (vs, last) :- elems;
    Ok((Items(InsertAll(got, vs)), last.(turned := last.turned + (away + TurnedAll(got, vs)))))
  }

  ghost predicate MapIsElems(r: Context, bin: Bin, e: Type, n: nat, got: seq<Value>, away: seq<Value>, row: Row,
                             k: nat, s: In) {
    && Readable(r, bin, e, s)
    && ReadEntries(r, bin, e, n, got, away, row, k, s) ==
       AllInserted(ReadElems(r, bin, e, n, false, row, k, s), got, away)
  }

  /** Reading a map is reading its entries and inserting them in turn; keys may be equal or not. */
  lemma {:induction false} EntriesAreElems(r: Context, bin: Bin, e: Type, n: nat, got: seq<Value>, away: seq<Value>,
                                           row: Row, k: nat, s: In)
    requires Readable(r, bin, e, s)
    ensures MapIsElems(r, bin, e, n, got, away, row, k, s)
    decreases n
  {
    if n == 0 {
      ReadNoEntries(r, bin, e, got, away, row, k, s);
      NoneInserted(got, away, s);
    } else {
      ReadEntriesUnfolds(r, bin, e, n, got, away, row, k, s);
      var head := Read(r, bin, e, Spot(row, k), s);
      if head.Ok? {
        EntriesAreElems(r, bin, e, n - 1, Insert(got, head.value.0), away + TurnedBy(got, head.value.0), row, k + 1,
                        head.value.1);
        EntriesJoin(r, bin, e, n, got, away, row, k, s, head.value.0, head.value.1);
      } else {
        ReadElemsUnfolds(r, bin, e, n, false, row, k, s, s);
      }
    }
  }

  lemma EntriesJoin(r: Context, bin: Bin, e: Type, n: nat, got: seq<Value>, away: seq<Value>, row: Row, k: nat, s: In,
                    v: Value, t: In)
    requires 0 < n && Readable(r, bin, e, s) && Read(r, bin, e, Spot(row, k), s) == Ok((v, t))
    requires MapIsElems(r, bin, e, n - 1, Insert(got, v), away + TurnedBy(got, v), row, k + 1, t)
    ensures MapIsElems(r, bin, e, n, got, away, row, k, s)
  {
    ReadEntriesUnfolds(r, bin, e, n, got, away, row, k, s);
    ReadElemsUnfolds(r, bin, e, n, false, row, k, s, s);
    InsertThenAll(got, away, v, t, ReadElems(r, bin, e, n - 1, false, row, k + 1, t));
  }

  lemma NoneInserted(got: seq<Value>, away: seq<Value>, s: In)
    ensures AllInserted(Ok(([], s)), got, away) == Ok((Items(got), s.(turned := s.turned + away)))
  {
    assert away + TurnedAll(got, []) == away;
  }

  lemma InsertThenAll(got: seq<Value>, away: seq<Value>, v: Value, t: In, rest: Result<(seq<Value>, In)>)
    ensures AllInserted(Prepend(Ok((v, t)), rest), got, away) ==
            AllInserted(rest, Insert(got, v), away + TurnedBy(got, v))
  {
    if rest.Ok? {
      AllFollowOne(got, v, rest.value.0, away);
    }
  }

  lemma AllFollowOne(got: seq<Value>, v: Value, vs: seq<Value>, away: seq<Value>)
    ensures InsertAll(got, [v] + vs) == InsertAll(Insert(got, v), vs)
    ensures away + TurnedAll(got, [v] + vs) == away + TurnedBy(got, v) + TurnedAll(Insert(got, v), vs)
  {
    var all := [v] + vs;
    assert all[0] == v && all[1..] == vs;
    var one, more := TurnedBy(got, v), TurnedAll(Insert(got, v), vs);
    assert TurnedAll(got, all) == one + more;
    assert away + (one + more) == away + one + more;
  }

  lemma ReadFieldsUnfolds(r: Context, bin: Bin, ts: seq<Type>, whole: Place, k: nat, s: In)
    requires ts != [] && FieldsReadable(r, ts) && Fresh(s) && s.cursor <= |bin|
    ensures var head := Read(r, bin, ts[0], Part(whole, k), s);
            head.Ok? ==> Advances(bin, s, head.value.1)
    ensures var head := Read(r, bin, ts[0], Part(whole, k), s);
            ReadFields(r, bin, ts, whole, k, s) ==
            Prepend(head, if head.Ok? then ReadFields(r, bin, ts[1..], whole, k + 1, head.value.1) else Ok(([], s)))
  {
  }

  lemma ReadElemsUnfolds(r: Context, bin: Bin, e: Type, n: nat, register: bool, row: Row, k: nat, s: In, noted: In)
    requires 0 < n && Readable(r, bin, e, s)
    requires noted == NotedIn(s, register, Spot(row, k))
    ensures Readable(r, bin, e, noted)
    ensures var head := Read(r, bin, e, Spot(row, k), noted);
            head.Ok? ==> Advances(bin, noted, head.value.1)
    ensures var head := Read(r, bin, e, Spot(row, k), noted);
            ReadElems(r, bin, e, n, register, row, k, s) ==
            Prepend(head,
                    if head.Ok? then ReadElems(r, bin, e, n - 1, register, row, k + 1, head.value.1) else Ok(([], s)))
  {
  }

  lemma ReadStructUnfolds(r: Context, bin: Bin, t: Type, at: Place, s: In)
    requires Readable(r, bin, t, s) && t.Struct? && !RawBlock(r, t) && !Skipped(r, t)
    requires AnySimplyAssignable(t.tags) ==> t.hasFunctions
    ensures FieldsReadable(r, t.fields)
    ensures Read(r, bin, t, at, s) == Wrapped(ReadFields(r, bin, t.fields, at, 0, s))
  {
  }

  lemma ReadSkippedUnfolds(r: Context, bin: Bin, t: Type, at: Place, s: In)
    requires Readable(r, bin, t, s) && t.Struct? && Skipped(r, t)
    ensures Read(r, bin, t, at, s) == Ok((Held(r, t, at), s))
  {
  }
}
