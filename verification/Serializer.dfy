/** BodyProcessor and rw.h, the serializing half: a context that is written to step by step. */
module Serializer {
  import opened Status
  import opened Bytes
  import opened Types
  import opened Layout
  import opened Writer
  import opened Steps
  import opened Unfolding

  /** What a method reports, and where it leaves the context, when the specification says `want`. */
  ghost predicate Reports(want: Result<Out>, status: Status, after: Out) {
    match want
    case Ok(p) => status == NoError && after == p
    case Err(e) => status == e && status != NoError
  }

  /** Only the first part of an object has the object's address. */
  function First(lead: Ref, i: nat): Ref {
    if i == 0 then lead else Null
  }

  /** Writing the elements from number `i` on gives what writing the array has to give. */
  ghost predicate ElemsLeft(c: Context, heap: Heap, e: Type, vs: seq<Value>, i: nat, register: bool, lead: Ref, o: Out,
                            want: Result<Out>) {
    && i <= |vs| && Writable(c, heap, e) && ElemsTyped(e, vs, heap) && AtLead(First(lead, i), o)
    && want == WriteElems(c, heap, e, vs[i..], register, First(lead, i), o)
  }

  lemma ElemsLeftStep(c: Context, heap: Heap, e: Type, vs: seq<Value>, i: nat, register: bool, lead: Ref, o: Out,
                      want: Result<Out>)
    requires ElemsLeft(c, heap, e, vs, i, register, lead, o, want) && i < |vs|
    ensures HasType(e, vs[i], heap) && AtLead(First(lead, i), Noted(o, register, First(lead, i)))
    ensures var next := Write(c, heap, e, vs[i], First(lead, i), Noted(o, register, First(lead, i)));
            if next.Ok? then ElemsLeft(c, heap, e, vs, i + 1, register, lead, next.value, want) else want == next
  {
    WriteElemsUnfolds(c, heap, e, vs[i..], register, First(lead, i), o);
    assert vs[i..][1..] == vs[i + 1..];
  }

  lemma ElemsLeftEnds(c: Context, heap: Heap, e: Type, vs: seq<Value>, register: bool, lead: Ref, o: Out,
                      want: Result<Out>)
    requires ElemsLeft(c, heap, e, vs, |vs|, register, lead, o, want)
    ensures want == Ok(o)
  {
  }

  lemma AppendTwice(o: Out, x: seq<Byte>, y: seq<Byte>)
    ensures Append(Append(o, x), y) == Append(o, x + y)
  {
    assert (o.bin + x) + y == o.bin + (x + y);
  }

  /**
    * context::SData: the binary container and the pointers map, with the settings of the message; the ghost fields
    * are the book kept on lost objects.
    */
  class SData {
    const context: Context
    var bin: seq<Byte>
    var seen: map<Ref, nat>
    ghost var lost: set<Ref>
    ghost var misled: bool

    ghost function State(): Out
      reads this
    {
      Out(bin, seen, lost, misled)
    }

    constructor (context: Context, bin: seq<Byte>)
      ensures this.context == context && State() == Begun(bin)
    {
      this.context := context;
      this.bin := bin;
      this.seen := map[];
      this.lost, this.misled := {}, false;
    }

    /** The value is turned around when the host's byte order is not the message's, and laid out as the host does. */
    method WritePrimitive(n: nat, width: nat)
      requires n < Pow256(width)
      modifies this`bin
      ensures State() == Append(old(State()), Native(context.flags.bigEndianFormat, n, width))
    {
      var value := n;
      if context.bigEndianHost != context.flags.bigEndianFormat && width > 1 {
        value := ReverseEndianness(n, width);
      }
      PrimitiveBytesHostIndependent(context.bigEndianHost, context.flags.bigEndianFormat, n, width);
      bin := bin + Native(context.bigEndianHost, value, width);
    }

    method SerializeSizeT(n: nat) returns (status: Status)
      modifies this`bin
      ensures Reports(WriteSize(context, n, old(State())), status, State())
    {
      var width := if context.flags.bitness32 then 4 else 8;
      if n >= Pow256(width) {
        return ErrorValueOverflow;
      }
      PrimitiveBytesHostIndependent(context.bigEndianHost, context.flags.bigEndianFormat, n, width);
      WritePrimitive(n, width);
      return NoError;
    }

    method SerializeScalar(s: Scalar, n: int)
      requires ScalarOk(s) && InRange(s, n)
      modifies this`bin
      ensures State() == WritePrim(context, s, n, old(State()))
    {
      ghost var o, p := State(), Pattern(s, n);
      if !s.fixed && context.flags.sizeOfIntegersMayBeNotEqual {
        WriteTag(s.width);
      }
      assert State() == Append(o, SizeTag(context, s));
      WritePrimitive(Pattern(s, n), s.width);
      PrimitiveBytesHostIndependent(context.bigEndianHost, context.flags.bigEndianFormat, p, s.width);
      AppendTwice(o, SizeTag(context, s),
                  PrimitiveBytes(context.bigEndianHost, context.flags.bigEndianFormat, p, s.width));
    }

    method WriteTag(width: nat)
      requires width < 256
      modifies this`bin
      ensures State() == Append(old(State()), [width])
    {
      bin := bin + [width];
    }

    /** addPointerToMap: a null, the offset recorded for the address, or a new record just behind the marker. */
    method AddPointerToMap(ref: Ref) returns (status: Status, newPointer: bool)
      requires !ref.Element?
      modifies this
      ensures ref.Null? ==> !newPointer && Reports(WriteSize(context, 0, old(State())), status, State())
      ensures ref.Node? && ref in old(seen) ==>
                !newPointer && Reports(WriteBack(context, ref, old(State())), status, State())
      ensures ref.Node? && ref !in old(seen) ==>
                newPointer &&
                var marked := WriteSize(context, 1, old(State()));
                Reports(if marked.Ok? then Ok(marked.value.(seen := old(seen)[ref := |marked.value.bin|])) else marked,
                        status, State())
    {
      if ref.Null? {
        newPointer := false;
        status := SerializeSizeT(0);
      } else if ref !in seen {
        newPointer := true;
        status := SerializeSizeT(1);
        if status == NoError {
          seen := seen[ref := |bin|];
        }
      } else {
        newPointer := false;
        status := SerializeSizeT(seen[ref]);
        if status == NoError {
          misled := misled || ref in lost;
        }
      }
    }

    method SerializeValue(heap: Heap, t: Type, v: Value, lead: Ref) returns (status: Status)
      requires Writable(context, heap, t) && HasType(t, v, heap) && AtLead(lead, State())
      modifies this
      ensures Reports(Write(context, heap, t, v, lead, old(State())), status, State())
      decreases Unseen(heap, State()), t, 0
    {
      match t
      case Prim(s) =>
        SerializeScalar(s, v.n);
        status := NoError;
      case Pointer(name) =>
        status := SerializePointer(heap, name, v, lead);
      case Struct(_, _, _, _, _) =>
        status := SerializeStruct(heap, t, v, lead);
      case Array(e, _) =>
        status := SerializeArray(heap, e, v.items, lead);
      case Vector(e) =>
        status := SerializeSizeT(|v.items|);
        if status == NoError {
          status := SerializeArray(heap, e, v.items, Null);
        }
      case String(u) =>
        status := SerializeSizeT(|v.items|);
        if status == NoError {
          status := SerializeArray(heap, u, v.items + [Num(0)], Null);
        }
      case Map(e) =>
        status := SerializeSizeT(|v.items|);
        if status == NoError {
          status := SerializeElems(heap, e, v.items, false, Null);
        }
    }

    method SerializePointer(heap: Heap, name: nat, v: Value, lead: Ref) returns (status: Status)
      requires Writable(context, heap, Pointer(name)) && HasType(Pointer(name), v, heap) && AtLead(lead, State())
      modifies this
      ensures Reports(Write(context, heap, Pointer(name), v, lead, old(State())), status, State())
      decreases Unseen(heap, State()), Pointer(name), -1
    {
      if !context.flags.allowUnmanagedPointers {
        return ErrorNotSupportedSerializationSettingsForStruct;
      }
      var newPointer;
      status, newPointer := AddPointerToMap(v.ref);
      if status != NoError || !newPointer {
        return;
      }
      assert v.ref.id in old(Unseen(heap, State())) && v.ref.id !in Unseen(heap, State());
      status := SerializeValue(heap, context.types[name], heap[v.ref.id].value, v.ref);
    }

    method SerializeStruct(heap: Heap, t: Type, v: Value, lead: Ref) returns (status: Status)
      requires t.Struct? && Writable(context, heap, t) && HasType(t, v, heap) && AtLead(lead, State())
      modifies this
      ensures Reports(Write(context, heap, t, v, lead, old(State())), status, State())
      decreases Unseen(heap, State()), t, -1
    {
      if RawBlock(context, t) {
        PlainIgnoresHeap(t, v, heap);
        bin := bin + RawBytes(context.bigEndianHost, t, v);
        status := NoError;
      } else if Skipped(context, t) {
        status := NoError;
      } else if AnySimplyAssignable(t.tags) && !t.hasFunctions {
        status := ErrorNotSupportedSerializationSettingsForStruct;
      } else {
        status := SerializeFields(heap, t.fields, v.items, lead);
      }
    }

    method SerializeFields(heap: Heap, ts: seq<Type>, vs: seq<Value>, lead: Ref) returns (status: Status)
      requires FieldsWritable(context, heap, ts, vs) && AtLead(lead, State())
      modifies this
      ensures Reports(WriteFields(context, heap, ts, vs, lead, old(State())), status, State())
      decreases Unseen(heap, State()), ts, 0
    {
      var i := 0;
      while i < |ts|
        invariant i <= |ts|
        invariant Extends(old(State()), State()) && AtLead(First(lead, i), State())
        invariant WriteFields(context, heap, ts, vs, lead, old(State())) ==
                  WriteFields(context, heap, ts[i..], vs[i..], First(lead, i), State())
      {
        WriteFieldsUnfolds(context, heap, ts[i..], vs[i..], First(lead, i), State());
        status := SerializeValue(heap, ts[i], vs[i], First(lead, i));
        if status != NoError {
          return;
        }
        assert ts[i..][1..] == ts[i + 1..] && vs[i..][1..] == vs[i + 1..];
        i := i + 1;
      }
      status := NoError;
    }

    /** serialize(const _T* p, n): nothing, one raw block, or element by element. */
    method SerializeArray(heap: Heap, e: Type, vs: seq<Value>, lead: Ref) returns (status: Status)
      requires Writable(context, heap, e) && ElemsTyped(e, vs, heap) && AtLead(lead, State())
      modifies this
      ensures Reports(WriteArray(context, heap, e, vs, lead, old(State())), status, State())
      decreases Unseen(heap, State()), e, |vs| + 2
    {
      if e.Struct? && e.tags.empty {
        return NoError;
      }
      if RawBlock(context, e) {
        if e.Prim? && !e.scalar.fixed && context.flags.sizeOfIntegersMayBeNotEqual {
          WriteTag(e.scalar.width);
        }
        RawElemsTyped(e, vs, heap);
        bin := bin + RawElems(context.bigEndianHost, e, vs);
        return NoError;
      }
      status := SerializeElems(heap, e, vs, context.flags.checkRecursivePointers, lead);
    }

    /** The element's own address, which is that of the object around it if the element is its first part. */
    method NoteElement(register: bool, lead: Ref)
      modifies this`seen, this`lost
      ensures State() == Noted(old(State()), register, lead)
    {
      if register {
        if lead.Node? {
          lost := lost - {lead};
          seen := seen[lead := |bin|];
        } else {
          lost := lost + set ref | ref in seen && ref.Node? && seen[ref] == |bin|;
          seen := seen[Element(|bin|) := |bin|];
        }
      }
    }

    /** Element number `i` of an array, of which `want` is the outcome. */
    method SerializeElement(heap: Heap, e: Type, vs: seq<Value>, i: nat, register: bool, lead: Ref,
                            ghost want: Result<Out>)
        returns (status: Status)
      requires i < |vs| && ElemsLeft(context, heap, e, vs, i, register, lead, State(), want)
      modifies this
      ensures if status == NoError
              then ElemsLeft(context, heap, e, vs, i + 1, register, lead, State(), want)
              else want == Err(status)
      ensures status == NoError ==> Unseen(heap, State()) <= old(Unseen(heap, State()))
      decreases Unseen(heap, State()), e, 1
    {
      ElemsLeftStep(context, heap, e, vs, i, register, lead, State(), want);
      NoteElement(register, First(lead, i));
      assert Unseen(heap, State()) == old(Unseen(heap, State()));
      status := SerializeValue(heap, e, vs[i], First(lead, i));
    }

    method SerializeElems(heap: Heap, e: Type, vs: seq<Value>, register: bool, lead: Ref) returns (status: Status)
      requires Writable(context, heap, e) && ElemsTyped(e, vs, heap) && AtLead(lead, State())
      modifies this
      ensures Reports(WriteElems(context, heap, e, vs, register, lead, old(State())), status, State())
      decreases Unseen(heap, State()), e, |vs| + 1
    {
      var i := 0;
      ghost var want := WriteElems(context, heap, e, vs, register, lead, State());
      assert vs[0..] == vs;
      while i < |vs|
        invariant i <= |vs| && Unseen(heap, State()) <= old(Unseen(heap, State()))
        invariant ElemsLeft(context, heap, e, vs, i, register, lead, State(), want)
      {
        status := SerializeElement(heap, e, vs, i, register, lead, want);
        if status != NoError {
          return;
        }
        i := i + 1;
      }
      ElemsLeftEnds(context, heap, e, vs, register, lead, State(), want);
      status := NoError;
    }

    /**
      * serialize without the check of recursive pointers, for a value that has an unfolding, `u`; without one the code
      * does not come to an end.
      */
    method SerializeUnchecked(heap: Heap, t: Type, v: Value, ghost u: Value) returns (status: Status)
      requires Treeable(context, heap, t) && HasType(t, v, heap)
      requires Unfolds(context.types, heap, t, v, u) && TreeTyped(context.types, heap, t, u)
      modifies this
      ensures ReportsTree(WriteTree(context, heap, t, u, old(bin)), old(State()), status, State())
      decreases u, 2
    {
      if NoPointers(t) {
        PlainWriteIsLocal(context, heap, t, v, Null, State(), Null, Begun(bin));
        status := SerializeValue(heap, t, v, Null);
      } else if t.Pointer? {
        status := SerializeUncheckedPointer(heap, t, v, u);
      } else {
        status := NoError;
        if t.Vector? || t.Map? {
          status := SerializeSizeT(|v.items|);
        }
        if status == NoError {
          KidsTreeable(context, heap, t, |v.items|);
          status := SerializeAllUnchecked(heap, Kids(t, |v.items|), v.items, u.items);
        }
      }
    }

    /** An octet tells a pointer from a null one; what it leads to follows. */
    method SerializeUncheckedPointer(heap: Heap, t: Type, v: Value, ghost u: Value) returns (status: Status)
      requires t.Pointer? && Treeable(context, heap, t) && HasType(t, v, heap)
      requires Unfolds(context.types, heap, t, v, u) && TreeTyped(context.types, heap, t, u)
      modifies this
      ensures ReportsTree(WriteTree(context, heap, t, u, old(bin)), old(State()), status, State())
      decreases u, 1
    {
      OneOctet(context.flags.bigEndianFormat, 0);
      OneOctet(context.flags.bigEndianFormat, 1);
      if v.ref.Null? {
        WritePrimitive(0, 1);
        status := NoError;
      } else {
        WritePrimitive(1, 1);
        status := SerializeUnchecked(heap, context.types[t.target], heap[v.ref.id].value, u.items[0]);
      }
    }

    method SerializeAllUnchecked(heap: Heap, ts: seq<Type>, vs: seq<Value>, ghost us: seq<Value>)
        returns (status: Status)
      requires AllTreeable(context, heap, ts) && |ts| == |vs| && forall i | 0 <= i < |ts| :: HasType(ts[i], vs[i], heap)
      requires UnfoldAll(context.types, heap, ts, vs, us) && AllTreeTyped(context.types, heap, ts, us)
      modifies this
      ensures ReportsTree(WriteTrees(context, heap, ts, us, old(bin)), old(State()), status, State())
      decreases us, 0
    {
      var i := 0;
      while i < |ts|
        invariant i <= |ts| && State() == old(State()).(bin := bin)
        invariant WriteTrees(context, heap, ts, us, old(bin)) == WriteTrees(context, heap, ts[i..], us[i..], bin)
      {
        status := SerializeUnchecked(heap, ts[i], vs[i], us[i]);
        if status != NoError {
          return;
        }
        assert ts[i..][1..] == ts[i + 1..] && us[i..][1..] == us[i + 1..];
        i := i + 1;
      }
      status := NoError;
    }
  }

  ghost predicate ReportsTree(want: Result<seq<Byte>>, before: Out, status: Status, after: Out) {
    match want
    case Ok(s) => status == NoError && after == before.(bin := s)
    case Err(e) => status == e && status != NoError
  }
}
