/** Type trees, values and contexts of the body codec, and the gates that choose raw copies. */
module Types {
  import opened Bytes

  /** The flags of a message: the common flags, then the data flags. */
  datatype Flags = Flags(
    bitness32: bool,
    bigEndianFormat: bool,
    endiannessDifference: bool,
    alignmentMayBeNotEqual: bool,
    sizeOfIntegersMayBeNotEqual: bool,
    allowUnmanagedPointers: bool,
    checkRecursivePointers: bool,
    tagsTurnedOff: bool)

  /**
    * An arithmetic or enumeration type; `fixed` holds for floating point and for the concept
    * FixSizedArithmeticOrEnumType.
    */
  datatype Scalar = Scalar(width: nat, signed: bool, fixed: bool)

  datatype Tags = Tags(simple: bool, alignedToOne: bool, fixedSize: bool, always: bool, tolerant: bool, empty: bool)

  /**
    * A type as one host sees it. A struct lists its fields, the padding its layout leaves after each,
    * its latest interface version (0 when it has none) and whether it has processing functions of its own.
    * std::pair and std::tuple are structs without tags. A map holds the type of its entries.
    */
  datatype Type =
    | Prim(scalar: Scalar)
    | Pointer(target: nat)
    | Struct(tags: Tags, version: nat, hasFunctions: bool, fields: seq<Type>, pads: seq<nat>)
    | Array(elem: Type, size: nat)
    | Vector(elem: Type)
    | String(unit: Type)
    | Map(entry: Type)

  /** What a pointer holds: nothing, the address of an object of its own, or that of an array element. */
  datatype Ref = Null | Node(id: nat) | Element(at: nat)

  datatype Value = Num(n: int) | Link(ref: Ref) | Items(items: seq<Value>)

  /** An object reached through pointers; its type is the one named `name`. */
  datatype Cell = Cell(name: nat, value: Value)

  type Heap = map<nat, Cell>

  /**
    * Where a value lives: the input of a call, an object made for a pointer, a field or array element inside
    * another value, or an item that a container keeps elsewhere.
    */
  datatype Place = Root(call: nat) | Object(id: nat) | Part(whole: Place, index: nat) | Item(whole: Place, index: nat)

  /**
    * Everything one party knows: its own byte order and layouts, the settings of the message, and what its
    * memory holds where a value is about to be read.
    */
  datatype Context = Context(
    bigEndianHost: bool,
    flags: Flags,
    interfaceVersion: nat,
    types: map<nat, Type>,
    held: map<Place, Value>)

  /** The object that begins at this very place, if there is one: first fields and elements share its address. */
  function Lead(at: Place): Ref {
    match at
    case Root(_) => Null
    case Object(id) => Node(id)
    case Part(whole, index) => if index == 0 then Lead(whole) else Null
    case Item(_, _) => Null
  }

  // ---------------------------------------------------------------- scalars

  predicate ScalarOk(s: Scalar) {
    s.width == 1 || s.width == 2 || s.width == 4 || s.width == 8
  }

  predicate InRange(s: Scalar, n: int) {
    if s.signed then 0 - Pow256(s.width) <= 2 * n < Pow256(s.width) else 0 <= n < Pow256(s.width)
  }

  /** Two's complement pattern. */
  function Pattern(s: Scalar, n: int): (p: nat)
    requires InRange(s, n)
    ensures p < Pow256(s.width)
  {
    if n < 0 then n + Pow256(s.width) else n
  }

  function FromPattern(s: Scalar, p: nat): (n: int)
    requires p < Pow256(s.width)
    ensures InRange(s, n) && Pattern(s, n) == p
  {
    if s.signed && Pow256(s.width) <= 2 * p then p - Pow256(s.width) else p
  }

  lemma PatternDecodes(s: Scalar, n: int)
    requires InRange(s, n)
    ensures FromPattern(s, Pattern(s, n)) == n
  {
  }

  // ---------------------------------------------------------------- tags and gates

  predicate AnySimplyAssignable(tags: Tags) {
    tags.simple || tags.alignedToOne || tags.fixedSize || tags.always
  }

  /** sizeof, for the types a raw copy may cover. */
  function RawSize(t: Type): nat {
    match t
    case Prim(s) => s.width
    case Array(e, n) => BlockSize(RawSize(e), n)
    case Struct(_, _, _, fields, pads) => RawSizes(fields, pads)
    case _ => 8
  }

  /** sizeof(T) * n. */
  function BlockSize(size: nat, n: nat): nat {
    if n == 0 then 0 else size + BlockSize(size, n - 1)
  }

  lemma {:induction false} BlockSizeIsProduct(size: nat, n: nat)
    ensures BlockSize(size, n) == size * n
  {
    if n != 0 {
      BlockSizeIsProduct(size, n - 1);
      assert size * n == size + size * (n - 1);
    }
  }

  function RawSizes(ts: seq<Type>, pads: seq<nat>): nat {
    if ts == [] || pads == [] then 0 else RawSize(ts[0]) + pads[0] + RawSizes(ts[1..], pads[1..])
  }

  /** The concept EndiannessTolerant. */
  predicate Tolerant(t: Type) {
    (t.Struct? && t.tags.tolerant) || RawSize(t) == 1
  }

  /** The tag part of the gate in front of writeRawData and readRawData. */
  predicate TagGate(c: Context, t: Type) {
    && t.Struct?
    && !c.flags.tagsTurnedOff
    && t.version <= c.interfaceVersion
    && (|| t.tags.always
        || (t.tags.fixedSize && !c.flags.alignmentMayBeNotEqual)
        || (t.tags.alignedToOne && !c.flags.sizeOfIntegersMayBeNotEqual)
        || (t.tags.simple && !c.flags.alignmentMayBeNotEqual && !c.flags.sizeOfIntegersMayBeNotEqual))
  }

  /** An array of such elements travels as one block; a struct of this kind does so on its own as well. */
  predicate RawBlock(c: Context, t: Type) {
    (!c.flags.endiannessDifference || Tolerant(t)) && (t.Prim? || TagGate(c, t))
  }

  /**
    * A tagged struct without functions of its own for which serializeSimplyAssignable reports success and does nothing.
    */
  predicate Skipped(c: Context, t: Type) {
    && t.Struct?
    && AnySimplyAssignable(t.tags)
    && !t.hasFunctions
    && (c.interfaceVersion < t.version || (c.flags.endiannessDifference && !Tolerant(t)))
  }

  predicate Tagged(c: Context, s: Scalar) {
    c.flags.sizeOfIntegersMayBeNotEqual && !s.fixed
  }

  // ---------------------------------------------------------------- what the tags promise

  /** Arithmetic types, structs of them and arrays of either. */
  predicate Plain(t: Type) {
    match t
    case Prim(_) => true
    case Array(e, n) => 0 < n && Plain(e)
    case Struct(_, _, _, fields, pads) =>
      0 < |fields| == |pads| && forall f | f in fields :: Plain(f)
    case _ => false
  }

  predicate NoPads(t: Type) {
    match t
    case Array(e, _) => NoPads(e)
    case Struct(_, _, _, fields, pads) =>
      (forall p | p in pads :: p == 0) && forall f | f in fields :: NoPads(f)
    case _ => true
  }

  /** Every arithmetic member takes one octet. */
  predicate Octets(t: Type) {
    match t
    case Prim(s) => s.width == 1
    case Array(e, _) => Octets(e)
    case Struct(_, _, _, fields, _) => forall f | f in fields :: Octets(f)
    case _ => true
  }

  predicate TypeOk(t: Type) {
    match t
    case Prim(s) => ScalarOk(s)
    case Pointer(_) => true
    case Array(e, n) => 0 < n && TypeOk(e)
    case Vector(e) => TypeOk(e)
    case String(u) => u.Prim? && TypeOk(u)
    case Map(e) =>
      e.Struct? && e.tags == NoTags() && e.hasFunctions && |e.fields| == 2 && NoPointers(e.fields[0]) && TypeOk(e)
    case Struct(tags, _, _, fields, pads) =>
      && |fields| == |pads|
      && (forall f | f in fields :: TypeOk(f))
      && (tags.empty ==> fields == [] && !AnySimplyAssignable(tags))
      && (AnySimplyAssignable(tags) ==> Plain(t))
      && (tags.alignedToOne || tags.always ==> NoPads(t))
      && (AnySimplyAssignable(tags) && tags.tolerant ==> Octets(t))
  }

  function NoTags(): Tags {
    Tags(false, false, false, false, false, false)
  }

  predicate NoPointers(t: Type) {
    match t
    case Pointer(_) => false
    case Array(e, _) => NoPointers(e)
    case Vector(e) => NoPointers(e)
    case Map(e) => NoPointers(e)
    case Struct(_, _, _, fields, _) => forall f | f in fields :: NoPointers(f)
    case _ => true
  }

  /** Every pointee type named in `t` is known. */
  predicate Known(types: map<nat, Type>, t: Type) {
    match t
    case Pointer(name) => name in types
    case Array(e, _) => Known(types, e)
    case Vector(e) => Known(types, e)
    case Map(e) => Known(types, e)
    case Struct(_, _, _, fields, _) => forall f | f in fields :: Known(types, f)
    case _ => true
  }

  /** No struct that is processed on its own is one of the Skipped ones. */
  predicate Unskipped(c: Context, t: Type) {
    match t
    case Array(e, _) => Unskipped(c, e)
    case Vector(e) => Unskipped(c, e)
    case Map(e) => Unskipped(c, e)
    case Struct(_, _, _, fields, _) =>
      RawBlock(c, t) || (!Skipped(c, t) && forall f | f in fields :: Unskipped(c, f))
    case _ => true
  }

  // ---------------------------------------------------------------- values

  predicate HasType(t: Type, v: Value, heap: Heap) {
    match t
    case Prim(s) => v.Num? && InRange(s, v.n)
    case Pointer(name) =>
      v.Link? && (v.ref.Null? || (v.ref.Node? && v.ref.id in heap && heap[v.ref.id].name == name))
    case Struct(_, _, _, fields, _) =>
      v.Items? && |v.items| == |fields| && forall i | 0 <= i < |fields| :: HasType(fields[i], v.items[i], heap)
    case Array(e, n) =>
      v.Items? && |v.items| == n && forall i | 0 <= i < |v.items| :: HasType(e, v.items[i], heap)
    case Vector(e) =>
      v.Items? && forall i | 0 <= i < |v.items| :: HasType(e, v.items[i], heap)
    case String(u) =>
      v.Items? && forall i | 0 <= i < |v.items| :: HasType(u, v.items[i], heap)
    case Map(e) =>
      && v.Items?
      && (forall i | 0 <= i < |v.items| :: HasType(e, v.items[i], heap))
      && DistinctKeys(v.items)
  }

  /** Map entries are two-item values with pairwise different first items. */
  predicate DistinctKeys(entries: seq<Value>) {
    && (forall i | 0 <= i < |entries| :: IsEntry(entries[i]))
    && forall i, j | 0 <= i < j < |entries| :: entries[i].items[0] != entries[j].items[0]
  }

  predicate IsEntry(v: Value) {
    v.Items? && |v.items| == 2
  }

  /** Every cell holds a value of the type it is named after. */
  ghost predicate HeapOk(types: map<nat, Type>, heap: Heap) {
    forall a | a in heap :: heap[a].name in types && HasType(types[heap[a].name], heap[a].value, heap)
  }

  predicate ContextOk(c: Context) {
    forall name | name in c.types :: TypeOk(c.types[name]) && Known(c.types, c.types[name])
  }

  /** A message that allows pointers has them checked. */
  predicate PointersChecked(c: Context) {
    c.flags.allowUnmanagedPointers ==> c.flags.checkRecursivePointers
  }

  /** What the common header processor checks on either side before the body is reached. */
  predicate ByteOrderAccepted(c: Context) {
    c.bigEndianHost == c.flags.bigEndianFormat || c.flags.endiannessDifference
  }

  // ---------------------------------------------------------------- what is there before a read

  /** A value with nothing in it. */
  function Default(t: Type): Value {
    match t
    case Prim(_) => Num(0)
    case Pointer(_) => Link(Null)
    case Struct(_, _, _, fields, _) => Items(seq(|fields|, i requires 0 <= i < |fields| => Default(fields[i])))
    case Array(e, n) => Items(seq(n, _ => Default(e)))
    case _ => Items([])
  }

  /** What the memory at a place holds, seen as a value of type `t`. */
  function Held(c: Context, t: Type, at: Place): Value {
    if at in c.held && HasType(t, c.held[at], map[]) then c.held[at] else Default(t)
  }

  lemma {:induction false} DefaultHasType(t: Type, heap: Heap)
    requires Plain(t) && TypeOk(t)
    ensures HasType(t, Default(t), heap)
  {
    match t
    case Prim(_) =>
    case Array(e, _) => DefaultHasType(e, heap);
    case Struct(_, _, _, fields, _) =>
      forall i | 0 <= i < |fields| ensures HasType(fields[i], Default(fields[i]), heap) {
        DefaultHasType(fields[i], heap);
      }
  }
}
