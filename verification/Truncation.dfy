/** Reading a body of which only the first octets are there. */
module Truncation {
  import opened Status
  import opened Bytes
  import opened Types
  import opened Writer
  import opened Reader
  import opened Steps
  import opened Isomorphism

  /** Running out of octets: for a number of another width than the reader's own that is corruption. */
  predicate RanOut(e: Status) {
    e == ErrorOverflow || e == ErrorDataCorrupted
  }

  /**
    * `got` is what reading the whole body gives, `cut` what reading its first `n` octets gives: the same if it ends
    * there or before, or else a failure, for want of octets unless the whole fails in this way too.
    */
  ghost predicate CutAs<T>(got: Result<(T, In)>, cut: Result<(T, In)>, n: nat) {
    if got.Ok? && got.value.1.cursor <= n then cut == got
    else cut.Err? && (RanOut(cut.error) || (got.Err? && cut.error == got.error))
  }

  // ---------------------------------------------------------------- outcomes put together

  ghost predicate NotBefore<T, U>(head: Result<(T, In)>, tail: Result<(U, In)>) {
    head.Ok? && tail.Ok? ==> head.value.1.cursor <= tail.value.1.cursor
  }

  lemma WrappedCut(got: Result<(seq<Value>, In)>, cut: Result<(seq<Value>, In)>, n: nat)
    requires CutAs(got, cut, n)
    ensures CutAs(Wrapped(got), Wrapped(cut), n)
  {
  }

  lemma PrependCut(head: Result<(Value, In)>, headCut: Result<(Value, In)>, tail: Result<(seq<Value>, In)>,
                   tailCut: Result<(seq<Value>, In)>, n: nat)
    requires CutAs(head, headCut, n) && NotBefore(head, tail)
    requires head.Ok? && head.value.1.cursor <= n ==> CutAs(tail, tailCut, n)
    ensures CutAs(Prepend(head, tail), Prepend(headCut, tailCut), n)
  {
  }

  // ---------------------------------------------------------------- octets and numbers

  lemma FetchCut(bin: Bin, width: nat, s: In, n: nat)
    requires s.cursor <= n <= |bin|
    ensures CutAs(Fetch(bin, width, s), Fetch(bin[..n], width, s), n)
  {
    if s.cursor + width <= n {
      assert bin[..n][s.cursor..s.cursor + width] == bin[s.cursor..s.cursor + width];
    }
  }

  lemma FetchAsCut(bin: Bin, width: nat, own: nat, s: In, n: nat)
    requires s.cursor <= n <= |bin|
    ensures CutAs(FetchAs(bin, width, own, s), FetchAs(bin[..n], width, own, s), n)
  {
    FetchCut(bin, width, s, n);
  }

  lemma ReadSizeCut(c: Context, bin: Bin, s: In, n: nat)
    requires s.cursor <= n <= |bin|
    ensures CutAs(ReadSize(c, bin, s), ReadSize(c, bin[..n], s), n)
  {
    FetchAsCut(bin, SizeWidth(c.flags), 8, s, n);
  }

  lemma ReadPrimAsCut(c: Context, bin: Bin, width: nat, target: Scalar, s: In, n: nat)
    requires ScalarOk(target) && Fresh(s) && s.cursor <= n <= |bin|
    ensures CutAs(ReadPrimAs(c, bin, width, target, s), ReadPrimAs(c, bin[..n], width, target, s), n)
  {
    FetchAsCut(bin, width, target.width, s, n);
  }

  lemma ReadPrimCut(c: Context, bin: Bin, target: Scalar, s: In, n: nat)
    requires ScalarOk(target) && Fresh(s) && s.cursor <= n <= |bin|
    ensures CutAs(ReadPrim(c, bin, target, s), ReadPrim(c, bin[..n], target, s), n)
  {
    if Tagged(c, target) {
      FetchCut(bin, 1, s, n);
      if s.cursor + 1 <= n {
        ReadPrimAsCut(c, bin, bin[s.cursor], target, s.(cursor := s.cursor + 1), n);
      }
    } else {
      ReadPrimAsCut(c, bin, target.width, target, s, n);
    }
  }

  lemma {:induction false} ReadPrimsAsCut(c: Context, bin: Bin, width: nat, target: Scalar, k: nat, s: In, n: nat)
    requires ScalarOk(target) && Fresh(s) && s.cursor <= n <= |bin|
    ensures CutAs(ReadPrimsAs(c, bin, width, target, k, s), ReadPrimsAs(c, bin[..n], width, target, k, s), n)
    decreases k
  {
    if k != 0 {
      ReadPrimAsCut(c, bin, width, target, s, n);
      var one := ReadPrimAs(c, bin, width, target, s);
      if one.Ok? && one.value.1.cursor <= n {
        ReadPrimsAsCut(c, bin, width, target, k - 1, one.value.1, n);
      }
    }
  }

  lemma ReadBlockCut(c: Context, bin: Bin, e: Type, k: nat, s: In, n: nat)
    requires TypeOk(e) && Plain(e) && Fresh(s) && s.cursor <= n <= |bin|
    ensures CutAs(ReadBlock(c, bin, e, k, s), ReadBlock(c, bin[..n], e, k, s), n)
  {
    FetchCut(bin, BlockSize(RawSize(e), k), s, n);
  }

  lemma ReadMarkCut(c: Context, bin: Bin, s: In, n: nat)
    requires s.cursor <= n <= |bin|
    ensures CutAs(ReadMark(c, bin, s), ReadMark(c, bin[..n], s), n)
  {
    if c.flags.checkRecursivePointers {
      ReadSizeCut(c, bin, s, n);
    } else {
      FetchCut(bin, 1, s, n);
    }
  }

  // ---------------------------------------------------------------- values

  lemma StillReadable(c: Context, bin: Bin, t: Type, s: In, n: nat)
    requires Readable(c, bin, t, s) && s.cursor <= n <= |bin|
    ensures Readable(c, bin[..n], t, s)
  {
  }

  /** What a pointer reads, given what its mark is. */
  ghost predicate PointerIs(c: Context, bin: Bin, name: nat, mark: Result<(Mark, In)>, got: Result<(Value, In)>) {
    match mark
    case Err(e) => got == Err(e)
    case Ok((There(ref), after)) => got == Ok((Link(ref), after))
    case Ok((New, after)) =>
      && name in c.types && Readable(c, bin, c.types[name], Allocated(c, after))
      && got == Made(name, after.next, Read(c, bin, c.types[name], Object(after.next), Allocated(c, after)))
  }

  /** The object numbered `id`, once its value has been read. */
  function Made(name: nat, id: nat, pointee: Result<(Value, In)>): Result<(Value, In)> {
    var (v, last) :- pointee;
    Ok((Link(Node(id)), last.(made := last.made[id := Cell(name, v)])))
  }

  lemma PointerUnfolds(c: Context, bin: Bin, t: Type, at: Place, s: In)
    requires Readable(c, bin, t, s) && t.Pointer? && c.flags.allowUnmanagedPointers
    ensures PointerIs(c, bin, t.target, ReadMark(c, bin, s), Read(c, bin, t, at, s))
  {
  }

  /** A container whose size cannot be read. */
  lemma NoSize(c: Context, bin: Bin, t: Type, at: Place, s: In)
    requires Readable(c, bin, t, s) && (t.Vector? || t.String? || t.Map?) && ReadSize(c, bin, s).Err?
    ensures Read(c, bin, t, at, s) == Err(ReadSize(c, bin, s).error)
  {
  }

  ghost predicate ValueCut(c: Context, bin: Bin, t: Type, at: Place, s: In, n: nat) {
    && s.cursor <= n <= |bin| && Readable(c, bin, t, s) && Readable(c, bin[..n], t, s)
    && CutAs(Read(c, bin, t, at, s), Read(c, bin[..n], t, at, s), n)
  }

  /**
    * Cutting a body short changes nothing about what ends before the cut, and lets nothing succeed that does not:
    * no encoding begins with another one.
    */
  lemma {:induction false} ReadCut(c: Context, bin: Bin, t: Type, at: Place, s: In, n: nat)
    requires Readable(c, bin, t, s) && s.cursor <= n <= |bin|
    ensures ValueCut(c, bin, t, at, s, n)
    decreases |bin| - s.cursor, t, 1
  {
    StillReadable(c, bin, t, s, n);
    match t
    case Prim(sc) =>
      ReadPrimCut(c, bin, sc, s, n);
      ReadPrimUnfolds(c, bin, t, at, s);
      ReadPrimUnfolds(c, bin[..n], t, at, s);
    case Pointer(_) =>
      if c.flags.allowUnmanagedPointers {
        PointerCut(c, bin, t, at, s, n);
      }
    case Struct(_, _, _, _, _) => StructCut(c, bin, t, at, s, n);
    case Array(e, k) =>
      ReadCountedUnfolds(c, bin, t, k, at, s, s);
      ReadCountedUnfolds(c, bin[..n], t, k, at, s, s);
      ReadArrayCut(c, bin, e, k, Row(at, true), s, n);
      WrappedCut(ReadArray(c, bin, e, k, Row(at, true), s), ReadArray(c, bin[..n], e, k, Row(at, true), s), n);
    case _ => CountedCut(c, bin, t, at, s, n);
  }

  lemma {:induction false} PointerCut(c: Context, bin: Bin, t: Type, at: Place, s: In, n: nat)
    requires Readable(c, bin, t, s) && s.cursor <= n <= |bin| && t.Pointer? && c.flags.allowUnmanagedPointers
    requires Readable(c, bin[..n], t, s)
    ensures CutAs(Read(c, bin, t, at, s), Read(c, bin[..n], t, at, s), n)
    decreases |bin| - s.cursor, t, 0
  {
    ReadMarkCut(c, bin, s, n);
    PointerUnfolds(c, bin, t, at, s);
    PointerUnfolds(c, bin[..n], t, at, s);
    var mark := ReadMark(c, bin, s);
    if mark.Ok? && mark.value.0.New? && mark.value.1.cursor <= n {
      ReadCut(c, bin, c.types[t.target], Object(s.next), Allocated(c, mark.value.1), n);
    }
  }

  lemma {:induction false} StructCut(c: Context, bin: Bin, t: Type, at: Place, s: In, n: nat)
    requires Readable(c, bin, t, s) && s.cursor <= n <= |bin| && t.Struct? && Readable(c, bin[..n], t, s)
    ensures CutAs(Read(c, bin, t, at, s), Read(c, bin[..n], t, at, s), n)
    decreases |bin| - s.cursor, t, 0
  {
    if RawBlock(c, t) {
      FetchCut(bin, RawSize(t), s, n);
    } else if !Skipped(c, t) && (AnySimplyAssignable(t.tags) ==> t.hasFunctions) {
      ReadStructUnfolds(c, bin, t, at, s);
      ReadStructUnfolds(c, bin[..n], t, at, s);
      ReadFieldsCut(c, bin, t.fields, at, 0, s, n);
      WrappedCut(ReadFields(c, bin, t.fields, at, 0, s), ReadFields(c, bin[..n], t.fields, at, 0, s), n);
    }
  }

  lemma {:induction false} CountedCut(c: Context, bin: Bin, t: Type, at: Place, s: In, n: nat)
    requires Readable(c, bin, t, s) && s.cursor <= n <= |bin| && Readable(c, bin[..n], t, s)
    requires t.Vector? || t.String? || t.Map?
    ensures CutAs(Read(c, bin, t, at, s), Read(c, bin[..n], t, at, s), n)
    decreases |bin| - s.cursor, t, 0
  {
    ReadSizeCut(c, bin, s, n);
    var size := ReadSize(c, bin, s);
    if size.Err? {
      NoSize(c, bin, t, at, s);
      NoSize(c, bin[..n], t, at, s);
    } else if n < size.value.1.cursor {
      NoSize(c, bin[..n], t, at, s);
      EndsBehindSize(c, bin, t, at, s, size.value.0, size.value.1);
    } else {
      ItemsCut(c, bin, t, at, s, n, size.value.0, size.value.1);
    }
  }

  lemma EndsBehindSize(c: Context, bin: Bin, t: Type, at: Place, s: In, k: nat, sized: In)
    requires Readable(c, bin, t, s) && (t.Vector? || t.String? || t.Map?) && ReadSize(c, bin, s) == Ok((k, sized))
    ensures Read(c, bin, t, at, s).Ok? ==> sized.cursor <= Read(c, bin, t, at, s).value.1.cursor
  {
    match t
    case Vector(_) => ReadCountedUnfolds(c, bin, t, k, at, s, sized);
    case String(_) => ReadStringUnfolds(c, bin, t, k, at, s, sized);
    case Map(_) => ReadMapUnfolds(c, bin, t, k, at, s, sized);
  }

  lemma {:induction false} ItemsCut(c: Context, bin: Bin, t: Type, at: Place, s: In, n: nat, k: nat, sized: In)
    requires s.cursor < sized.cursor <= n <= |bin| && (t.Vector? || t.String? || t.Map?)
    requires Readable(c, bin, t, s) && Readable(c, bin[..n], t, s)
    requires ReadSize(c, bin, s) == Ok((k, sized)) && ReadSize(c, bin[..n], s) == Ok((k, sized))
    ensures CutAs(Read(c, bin, t, at, s), Read(c, bin[..n], t, at, s), n)
    decreases |bin| - sized.cursor, t, 0
  {
    var row := Row(at, false);
    match t
    case Vector(e) =>
      ReadCountedUnfolds(c, bin, t, k, at, s, sized);
      ReadCountedUnfolds(c, bin[..n], t, k, at, s, sized);
      ReadArrayCut(c, bin, e, k, row, sized, n);
      WrappedCut(ReadArray(c, bin, e, k, row, sized), ReadArray(c, bin[..n], e, k, row, sized), n);
    case String(u) =>
      ReadStringUnfolds(c, bin, t, k, at, s, sized);
      ReadStringUnfolds(c, bin[..n], t, k, at, s, sized);
      ReadArrayCut(c, bin, u, k + 1, row, sized, n);
    case Map(e) =>
      ReadMapUnfolds(c, bin, t, k, at, s, sized);
      ReadMapUnfolds(c, bin[..n], t, k, at, s, sized);
      ReadElemsCut(c, bin, e, k, false, row, 0, sized, n);
  }

  lemma {:induction false} ReadArrayCut(c: Context, bin: Bin, e: Type, k: nat, row: Row, s: In, n: nat)
    requires Readable(c, bin, e, s) && s.cursor <= n <= |bin|
    ensures Readable(c, bin[..n], e, s)
    ensures CutAs(ReadArray(c, bin, e, k, row, s), ReadArray(c, bin[..n], e, k, row, s), n)
    decreases |bin| - s.cursor, e, k + 3
  {
    StillReadable(c, bin, e, s, n);
    if e.Struct? && e.tags.empty {
    } else if RawBlock(c, e) {
      BlockCut(c, bin, e, k, row, s, n);
    } else {
      ReadElemsCut(c, bin, e, k, c.flags.checkRecursivePointers, row, 0, s, n);
    }
  }

  lemma BlockCut(c: Context, bin: Bin, e: Type, k: nat, row: Row, s: In, n: nat)
    requires Readable(c, bin, e, s) && s.cursor <= n <= |bin| && Readable(c, bin[..n], e, s)
    requires RawBlock(c, e) && !(e.Struct? && e.tags.empty)
    ensures CutAs(ReadArray(c, bin, e, k, row, s), ReadArray(c, bin[..n], e, k, row, s), n)
  {
    if e.Prim? && Tagged(c, e.scalar) {
      FetchCut(bin, 1, s, n);
      if s.cursor + 1 <= n {
        var after := s.(cursor := s.cursor + 1);
        ReadBlockCut(c, bin, e, k, after, n);
        ReadPrimsAsCut(c, bin, bin[s.cursor], e.scalar, k, after, n);
      }
    } else {
      ReadBlockCut(c, bin, e, k, s, n);
    }
  }

  ghost predicate ElemsCut(c: Context, bin: Bin, e: Type, k: nat, register: bool, row: Row, i: nat, s: In, n: nat) {
    && s.cursor <= n <= |bin| && Readable(c, bin, e, s) && Readable(c, bin[..n], e, s)
    && CutAs(ReadElems(c, bin, e, k, register, row, i, s), ReadElems(c, bin[..n], e, k, register, row, i, s), n)
  }

  lemma NoElemsCut(c: Context, bin: Bin, e: Type, register: bool, row: Row, i: nat, s: In, n: nat)
    requires Readable(c, bin, e, s) && s.cursor <= n <= |bin|
    ensures ElemsCut(c, bin, e, 0, register, row, i, s, n)
  {
  }

  lemma {:induction false} ReadElemsCut(c: Context, bin: Bin, e: Type, k: nat, register: bool, row: Row, i: nat,
                                        s: In, n: nat)
    requires Readable(c, bin, e, s) && s.cursor <= n <= |bin|
    ensures ElemsCut(c, bin, e, k, register, row, i, s, n)
    decreases |bin| - s.cursor, e, k + 2
  {
    if k == 0 {
      NoElemsCut(c, bin, e, register, row, i, s, n);
    } else {
      var noted := NotedIn(s, register, Spot(row, i));
      ReadElemsUnfolds(c, bin, e, k, register, row, i, s, noted);
      ReadCut(c, bin, e, Spot(row, i), noted, n);
      var head := Read(c, bin, e, Spot(row, i), noted);
      if head.Ok? && head.value.1.cursor <= n {
        var next := head.value.1;
        ReadElemsCut(c, bin, e, k - 1, register, row, i + 1, next, n);
        ElemsStepCut(c, bin, e, k, register, row, i, s, noted, next, n);
      } else {
        ElemsEndCut(c, bin, e, k, register, row, i, s, noted, n);
      }
    }
  }

  /** The elements behind the first, if that has been read. */
  function Behind(c: Context, bin: Bin, e: Type, k: nat, register: bool, row: Row, i: nat,
                  head: Result<(Value, In)>): (r: Result<(seq<Value>, In)>)
    requires head.Ok? ==> Readable(c, bin, e, head.value.1)
    ensures NotBefore(head, r)
  {
    if head.Ok? then ReadElems(c, bin, e, k, register, row, i, head.value.1) else Err(head.error)
  }

  lemma ElemsAreBehind(c: Context, bin: Bin, e: Type, k: nat, register: bool, row: Row, i: nat, s: In, noted: In)
    requires 0 < k && Readable(c, bin, e, s) && noted == NotedIn(s, register, Spot(row, i))
    ensures Readable(c, bin, e, noted)
    ensures var head := Read(c, bin, e, Spot(row, i), noted);
            && (head.Ok? ==> Readable(c, bin, e, head.value.1))
            && ReadElems(c, bin, e, k, register, row, i, s) ==
               Prepend(head, Behind(c, bin, e, k - 1, register, row, i + 1, head))
  {
    ReadElemsUnfolds(c, bin, e, k, register, row, i, s, noted);
  }

  /** The first element is read in both. */
  lemma ElemsStepCut(c: Context, bin: Bin, e: Type, k: nat, register: bool, row: Row, i: nat, s: In, noted: In,
                     next: In, n: nat)
    requires 0 < k && s.cursor <= n <= |bin| && Readable(c, bin, e, s)
    requires noted == NotedIn(s, register, Spot(row, i)) && ValueCut(c, bin, e, Spot(row, i), noted, n)
    requires var head := Read(c, bin, e, Spot(row, i), noted); head.Ok? && head.value.1 == next && next.cursor <= n
    requires ElemsCut(c, bin, e, k - 1, register, row, i + 1, next, n)
    ensures ElemsCut(c, bin, e, k, register, row, i, s, n)
  {
    StillReadable(c, bin, e, s, n);
    var cut, at := bin[..n], Spot(row, i);
    ElemsAreBehind(c, bin, e, k, register, row, i, s, noted);
    ElemsAreBehind(c, cut, e, k, register, row, i, s, noted);
    var head := Read(c, bin, e, at, noted);
    PrependCut(head, head, Behind(c, bin, e, k - 1, register, row, i + 1, head),
               Behind(c, cut, e, k - 1, register, row, i + 1, head), n);
  }

  /** The cut comes within the first element, or that cannot be read. */
  lemma ElemsEndCut(c: Context, bin: Bin, e: Type, k: nat, register: bool, row: Row, i: nat, s: In, noted: In, n: nat)
    requires 0 < k && s.cursor <= n <= |bin| && Readable(c, bin, e, s)
    requires noted == NotedIn(s, register, Spot(row, i)) && ValueCut(c, bin, e, Spot(row, i), noted, n)
    requires var head := Read(c, bin, e, Spot(row, i), noted); head.Ok? ==> n < head.value.1.cursor
    ensures ElemsCut(c, bin, e, k, register, row, i, s, n)
  {
    StillReadable(c, bin, e, s, n);
    var cut, at := bin[..n], Spot(row, i);
    ElemsAreBehind(c, bin, e, k, register, row, i, s, noted);
    ElemsAreBehind(c, cut, e, k, register, row, i, s, noted);
    var head, headCut := Read(c, bin, e, at, noted), Read(c, cut, e, at, noted);
    PrependCut(head, headCut, Behind(c, bin, e, k - 1, register, row, i + 1, head),
               Behind(c, cut, e, k - 1, register, row, i + 1, headCut), n);
  }

  lemma {:induction false} ReadFieldsCut(c: Context, bin: Bin, ts: seq<Type>, whole: Place, i: nat, s: In, n: nat)
    requires FieldsReadable(c, ts) && Fresh(s) && s.cursor <= n <= |bin|
    ensures CutAs(ReadFields(c, bin, ts, whole, i, s), ReadFields(c, bin[..n], ts, whole, i, s), n)
    decreases |bin| - s.cursor, ts, 0
  {
    if ts != [] {
      ReadFieldsUnfolds(c, bin, ts, whole, i, s);
      ReadFieldsUnfolds(c, bin[..n], ts, whole, i, s);
      ReadCut(c, bin, ts[0], Part(whole, i), s, n);
      var head, headCut := Read(c, bin, ts[0], Part(whole, i), s), Read(c, bin[..n], ts[0], Part(whole, i), s);
      var tail, tailCut := Ok(([], s)), Ok(([], s));
      if head.Ok? {
        tail := ReadFields(c, bin, ts[1..], whole, i + 1, head.value.1);
      }
      if headCut.Ok? {
        ReadFieldsCut(c, bin, ts[1..], whole, i + 1, head.value.1, n);
        tailCut := ReadFields(c, bin[..n], ts[1..], whole, i + 1, headCut.value.1);
      }
      PrependCut(head, headCut, tail, tailCut, n);
    }
  }

  // ---------------------------------------------------------------- what follows

  /** What a read does is decided by the octets it consumes: whatever stands behind them may be put in their place. */
  lemma OctetsBehindDoNotMatter(c: Context, bin: Bin, other: Bin, t: Type, at: Place, s: In)
    requires Readable(c, bin, t, s) && Read(c, bin, t, at, s).Ok?
    requires var end := Read(c, bin, t, at, s).value.1.cursor; end <= |other| && other[..end] == bin[..end]
    ensures Readable(c, other, t, s) && Read(c, other, t, at, s) == Read(c, bin, t, at, s)
  {
    var end := Read(c, bin, t, at, s).value.1.cursor;
    ReadCut(c, bin, t, at, s, end);
    ReadCut(c, other, t, at, s, end);
  }

  /** A body of which octets are missing is refused for want of them, wherever it has been cut. */
  lemma NothingMissingIsRead(c: Context, bin: Bin, t: Type, at: Place, s: In, n: nat)
    requires Readable(c, bin, t, s) && Read(c, bin, t, at, s).Ok?
    requires s.cursor <= n < Read(c, bin, t, at, s).value.1.cursor
    ensures var cut := Read(c, bin[..n], t, at, s);
            Readable(c, bin[..n], t, s) && cut.Err? && (cut.error == ErrorOverflow || cut.error == ErrorDataCorrupted)
  {
    ReadCut(c, bin, t, at, s, n);
  }

  /** No part of a body that has been written is read as the body, however it was cut on its way. */
  lemma PartOfABodyIsRefused(w: Context, r: Context, heap: Heap, t: Type, u: Type, v: Value, before: seq<Byte>,
                             call: nat, s: In, n: nat)
    requires BodyReady(w, r, heap, t, u, v, before, s) && |before| <= n < |Body(w, heap, t, v, before).value.bin|
    ensures var part := Body(w, heap, t, v, before).value.bin[..n];
            && Readable(r, part, u, s)
            && var got := Read(r, part, u, Root(call), s);
               got.Err? && (RanOut(got.error) || (got.error == ErrorValueOverflow && !AllFit(r, u, heap, v)))
  {
    var bin := Body(w, heap, t, v, before).value.bin;
    assert bin + [] == bin;
    GraphRoundTrip(w, r, heap, t, u, v, before, [], call, s);
    ReadCut(r, bin, u, Root(call), s, n);
  }
}
