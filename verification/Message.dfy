/** Whole data messages: the common header, the data header, and the body behind them. */
module Message {
  import opened Status
  import opened Bytes
  import opened Types
  import opened Writer
  import opened Reader
  import opened Graph
  import opened Exchanges
  import opened Leaves
  import opened Isomorphism

  const LATEST_PROTOCOL_VERSION: nat := 1

  /** The wire number of context::Message::Data. */
  const DATA_MESSAGE: nat := 1

  // ---------------------------------------------------------------- flags on the wire

  function Pow2(k: nat): (p: nat)
    ensures 0 < p
  {
    if k == 0 then 1 else 2 * Pow2(k - 1)
  }

  /** The number whose bits are `bits`, lowest first. */
  function Packed(bits: seq<bool>): (n: nat)
    ensures n < Pow2(|bits|)
  {
    if bits == [] then 0 else (if bits[0] then 1 else 0) + 2 * Packed(bits[1..])
  }

  /** Bit `k` of `n`. */
  predicate IsSet(n: nat, k: nat)
    decreases k
  {
    if k == 0 then n % 2 == 1 else IsSet(n / 2, k - 1)
  }

  /** The lowest `width` bits of `n`. */
  function Bits(n: nat, width: nat): (bits: seq<bool>)
    ensures |bits| == width
  {
    if width == 0 then [] else [n % 2 == 1] + Bits(n / 2, width - 1)
  }

  function CommonBits(f: Flags): (n: nat)
    ensures n < 8
  {
    PowersOfTwo();
    Packed([f.bitness32, f.bigEndianFormat, f.endiannessDifference])
  }

  function DataBits(f: Flags): (n: nat) {
    Packed([f.alignmentMayBeNotEqual, f.sizeOfIntegersMayBeNotEqual, f.allowUnmanagedPointers, f.checkRecursivePointers,
            f.tagsTurnedOff])
  }

  /** The flag classes keep the bits they know and drop the others. */
  function FlagsOf(common: nat, data: nat): Flags {
    Flags(IsSet(common, 0), IsSet(common, 1), IsSet(common, 2),
          IsSet(data, 0), IsSet(data, 1), IsSet(data, 2), IsSet(data, 3), IsSet(data, 4))
  }

  lemma {:induction false} PackedIsSet(bits: seq<bool>, k: nat)
    requires k < |bits|
    ensures IsSet(Packed(bits), k) == bits[k]
    decreases k
  {
    if k != 0 {
      PackedIsSet(bits[1..], k - 1);
    }
  }

  lemma {:induction false} BitAt(n: nat, width: nat, k: nat)
    requires k < width
    ensures Bits(n, width)[k] == IsSet(n, k)
    decreases k
  {
    if k != 0 {
      BitAt(n / 2, width - 1, k - 1);
    }
  }

  /** Packing the lowest bits of a number again gives its remainder. */
  lemma {:induction false} PackedBits(n: nat, width: nat)
    ensures Packed(Bits(n, width)) == n % Pow2(width)
    decreases width
  {
    if width != 0 {
      PackedBits(n / 2, width - 1);
      assert Bits(n, width)[1..] == Bits(n / 2, width - 1);
      HalfOfRemainder(n, Pow2(width - 1));
    }
  }

  lemma HalfOfRemainder(n: nat, m: nat)
    requires 0 < m
    ensures n % (2 * m) == n % 2 + 2 * (n / 2 % m)
  {
    var q, r := n / 2 / m, n / 2 % m;
    assert n / 2 == m * q + r;
    assert n == (2 * m) * q + (2 * r + n % 2);
    RemainderUnique(n, 2 * m, q, 2 * r + n % 2);
  }

  lemma RemainderUnique(n: nat, m: nat, q: nat, r: nat)
    requires r < m && n == m * q + r
    ensures n % m == r
  {
    var d := n / m - q;
    assert n == m * (n / m) + n % m;
    assert m * d == r - n % m;
    assert d >= 1 ==> m * d >= m;
    assert d <= -1 ==> m * d + m <= 0;
  }

  lemma FlagsRoundTrip(f: Flags)
    ensures FlagsOf(CommonBits(f), DataBits(f)) == f
    ensures FlagsOf(CommonBits(f), 0).bigEndianFormat == f.bigEndianFormat
    ensures FlagsOf(CommonBits(f), 0).endiannessDifference == f.endiannessDifference
    ensures CommonBits(f) < 8 && DataBits(f) < 32
  {
    var common := [f.bitness32, f.bigEndianFormat, f.endiannessDifference];
    forall k | 0 <= k < 3 { PackedIsSet(common, k); }
    var data := [f.alignmentMayBeNotEqual, f.sizeOfIntegersMayBeNotEqual, f.allowUnmanagedPointers,
                 f.checkRecursivePointers, f.tagsTurnedOff];
    forall k | 0 <= k < 5 { PackedIsSet(data, k); }
    PowersOfTwo();
  }

  lemma PowersOfTwo()
    ensures Pow2(3) == 8 && Pow2(5) == 32
  {
    assert Pow2(1) == 2;
    assert Pow2(3) == 2 * Pow2(2);
    assert Pow2(5) == 2 * Pow2(4);
  }

  /** Reserved bits never reach anyone: the test against kForbiddenFlagsMask cannot reject a message for them. */
  lemma ReservedBitsAreDropped(common: nat, data: nat)
    ensures CommonBits(FlagsOf(common, data)) == common % 8 && DataBits(FlagsOf(common, data)) == data % 32
    ensures FlagsOf(common, data) == FlagsOf(common % 8, data % 32)
  {
    PowersOfTwo();
    var f := FlagsOf(common, data);
    forall k | 0 <= k < 3 { BitAt(common, 3, k); }
    forall k | 0 <= k < 5 { BitAt(data, 5, k); }
    assert Bits(common, 3) == [f.bitness32, f.bigEndianFormat, f.endiannessDifference];
    assert Bits(data, 5) == [f.alignmentMayBeNotEqual, f.sizeOfIntegersMayBeNotEqual, f.allowUnmanagedPointers,
                             f.checkRecursivePointers, f.tagsTurnedOff];
    PackedBits(common, 3);
    PackedBits(data, 5);
    FlagsRoundTrip(f);
  }

  // ---------------------------------------------------------------- the two headers

  /**
    * What a serializable struct brings along: its id, its range of interface versions, and its demands on data flags.
    */
  datatype Interface = Interface(id: seq<Byte>, oldest: nat, newest: nat, mandatory: Flags, forbidden: Flags)

  predicate InterfaceOk(i: Interface) {
    |i.id| == 16
  }

  /** No forbidden data flag is set and no mandatory one is missing. */
  predicate DataFlagsCompatible(i: Interface, f: Flags) {
    && !(f.alignmentMayBeNotEqual && i.forbidden.alignmentMayBeNotEqual)
    && (i.mandatory.alignmentMayBeNotEqual ==> f.alignmentMayBeNotEqual)
    && !(f.sizeOfIntegersMayBeNotEqual && i.forbidden.sizeOfIntegersMayBeNotEqual)
    && (i.mandatory.sizeOfIntegersMayBeNotEqual ==> f.sizeOfIntegersMayBeNotEqual)
    && !(f.allowUnmanagedPointers && i.forbidden.allowUnmanagedPointers)
    && (i.mandatory.allowUnmanagedPointers ==> f.allowUnmanagedPointers)
    && !(f.checkRecursivePointers && i.forbidden.checkRecursivePointers)
    && (i.mandatory.checkRecursivePointers ==> f.checkRecursivePointers)
    && !(f.tagsTurnedOff && i.forbidden.tagsTurnedOff) && (i.mandatory.tagsTurnedOff ==> f.tagsTurnedOff)
  }

  function Bit(b: bool): nat {
    if b then 1 else 0
  }

  lemma PackedAll(bits: seq<bool>)
    ensures |bits| == 3 ==> Packed(bits) == Bit(bits[0]) + 2 * Bit(bits[1]) + 4 * Bit(bits[2])
    ensures |bits| == 5 ==>
              Packed(bits) == Bit(bits[0]) + 2 * Bit(bits[1]) + 4 * Bit(bits[2]) + 8 * Bit(bits[3]) + 16 * Bit(bits[4])
  {
    if |bits| == 3 {
      PackedThree(bits);
    } else if |bits| == 5 {
      PackedThree(bits[2..]);
      assert bits[1..][1..] == bits[2..];
      assert Packed(bits[1..]) == Bit(bits[1]) + 2 * Packed(bits[2..]);
    }
  }

  lemma PackedThree(bits: seq<bool>)
    requires |bits| == 3
    ensures Packed(bits) == Bit(bits[0]) + 2 * Bit(bits[1]) + 4 * Bit(bits[2])
  {
    assert Packed(bits[1..]) == Bit(bits[1]) + 2 * Packed(bits[1..][1..]);
    assert Packed(bits[1..][1..]) == Bit(bits[2]) + 2 * Packed(bits[1..][1..][1..]);
  }

  /** The bits of the flag words, as numbers. */
  lemma FlagBits(f: Flags)
    ensures CommonBits(f) == Bit(f.bitness32) + 2 * Bit(f.bigEndianFormat) + 4 * Bit(f.endiannessDifference)
    ensures DataBits(f) ==
            Bit(f.alignmentMayBeNotEqual) + 2 * Bit(f.sizeOfIntegersMayBeNotEqual) + 4 * Bit(f.allowUnmanagedPointers)
            + 8 * Bit(f.checkRecursivePointers) + 16 * Bit(f.tagsTurnedOff)
  {
    PackedAll([f.bitness32, f.bigEndianFormat, f.endiannessDifference]);
    PackedAll([f.alignmentMayBeNotEqual, f.sizeOfIntegersMayBeNotEqual, f.allowUnmanagedPointers,
               f.checkRecursivePointers, f.tagsTurnedOff]);
  }

  /** Bit `k` of a word is not forbidden, and is there if it is mandatory. */
  predicate BitSuits(word: nat, mandatory: nat, forbidden: nat, k: nat) {
    !(IsSet(word, k) && IsSet(forbidden, k)) && (IsSet(mandatory, k) ==> IsSet(word, k))
  }

  /** All valid bits of the word do. */
  predicate WordSuits(word: nat, mandatory: nat, forbidden: nat) {
    forall k: nat | k < 5 :: BitSuits(word, mandatory, forbidden, k)
  }

  lemma FiveBitsSuit(word: nat, mandatory: nat, forbidden: nat)
    ensures WordSuits(word, mandatory, forbidden) <==>
            && BitSuits(word, mandatory, forbidden, 0) && BitSuits(word, mandatory, forbidden, 1)
            && BitSuits(word, mandatory, forbidden, 2) && BitSuits(word, mandatory, forbidden, 3)
            && BitSuits(word, mandatory, forbidden, 4)
  {
  }

  /** What a struct demands of the data flags, said of the words as they stand on the wire. */
  lemma CompatibleIffWordSuits(i: Interface, common: nat, word: nat)
    ensures DataFlagsCompatible(i, FlagsOf(common, word)) <==>
            WordSuits(word, DataBits(i.mandatory), DataBits(i.forbidden))
  {
    var m, b := DataBits(i.mandatory), DataBits(i.forbidden);
    FlagsRoundTrip(i.mandatory);
    FlagsRoundTrip(i.forbidden);
    FiveBitsSuit(word, m, b);
    assert i.mandatory == FlagsOf(CommonBits(i.mandatory), m) && i.forbidden == FlagsOf(CommonBits(i.forbidden), b);
  }

  lemma OwnWordSuitsIff(i: Interface, f: Flags)
    ensures DataFlagsCompatible(i, f) <==> WordSuits(DataBits(f), DataBits(i.mandatory), DataBits(i.forbidden))
  {
    FlagsRoundTrip(f);
    CompatibleIffWordSuits(i, CommonBits(f), DataBits(f));
  }

  /** The common header, always little-endian. */
  function WriteCommon(host: bool, version: nat, message: nat, f: Flags): Result<seq<Byte>> {
    if version != LATEST_PROTOCOL_VERSION then
      Err(ErrorNotSupportedProtocolVersion)
    else if host != f.bigEndianFormat && !f.endiannessDifference then
      Err(ErrorNotCompatibleCommonFlagsSettings)
    else
      Ok(PrimitiveBytes(host, false, version, 2) + PrimitiveBytes(host, false, message, 2)
         + PrimitiveBytes(host, false, CommonBits(f), 4))
  }

  function WriteData(host: bool, i: Interface, version: nat, f: Flags): Result<seq<Byte>> {
    if version < i.oldest || i.newest < version then
      Err(ErrorNotSupportedInterfaceVersion)
    else if (f.checkRecursivePointers && !f.allowUnmanagedPointers) || !DataFlagsCompatible(i, f) then
      Err(ErrorNotCompatibleDataFlagsSettings)
    else
      Ok(i.id + PrimitiveBytes(host, f.bigEndianFormat, version, 4)
         + PrimitiveBytes(host, f.bigEndianFormat, DataBits(f), 4))
  }

  /** Both headers of a data message. */
  function WriteEnvelope(w: Context, i: Interface): Result<seq<Byte>> {
    var common :- WriteCommon(w.bigEndianHost, LATEST_PROTOCOL_VERSION, DATA_MESSAGE, w.flags);
    var data :- WriteData(w.bigEndianHost, i, w.interfaceVersion, w.flags);
    Ok(common + data)
  }

  /** An unsigned number of `width` octets. */
  function ReadNumber(host: bool, format: bool, bin: Bin, at: nat, width: nat): Result<nat> {
    if at + width <= |bin| then Ok(PrimitiveValue(host, format, bin[at..at + width])) else Err(ErrorOverflow)
  }

  /** The protocol version, cut to one octet, the message type and the bits of the common flags. */
  function ReadCommon(host: bool, minimum: nat, bin: Bin, at: nat): Result<(nat, nat, nat)> {
    var version :- ReadNumber(host, false, bin, at, 2);
    if version % 256 < minimum || LATEST_PROTOCOL_VERSION < version % 256 then
      Err(ErrorNotSupportedProtocolVersion)
    else
      var message :- ReadNumber(host, false, bin, at + 2, 2);
      var bits :- ReadNumber(host, false, bin, at + 4, 4);
      var f := FlagsOf(bits, 0);
      if host != f.bigEndianFormat && !f.endiannessDifference
      then Err(ErrorNotCompatibleCommonFlagsSettings)
      else Ok((version % 256, message, bits))
  }

  /**
    * What a handler demands of a data header; NoError when all of it is met. `keeps` tells whether the context
    * has a container for the objects that pointers make.
    */
  function Demands(i: Interface, minimum: nat, keeps: bool, id: seq<Byte>, version: nat, f: Flags): Status {
    if id != i.id then ErrorMismatchOfStructId
    else if version < minimum || i.newest < version then ErrorNotSupportedInterfaceVersion
    else if !DataFlagsCompatible(i, f) then ErrorNotCompatibleDataFlagsSettings
    else if f.allowUnmanagedPointers && !keeps then ErrorInvalidArgument
    else if f.checkRecursivePointers && !f.allowUnmanagedPointers then ErrorNotCompatibleDataFlagsSettings
    else NoError
  }

  /** The same demands, said of the word of data flags as it stands on the wire. */
  function WordVerdict(i: Interface, minimum: nat, keeps: bool, id: seq<Byte>, version: nat, word: nat): Status {
    if id != i.id then ErrorMismatchOfStructId
    else if version < minimum || i.newest < version then ErrorNotSupportedInterfaceVersion
    else if !WordSuits(word, DataBits(i.mandatory), DataBits(i.forbidden)) then ErrorNotCompatibleDataFlagsSettings
    else if IsSet(word, 2) && !keeps then ErrorInvalidArgument
    else if IsSet(word, 3) && !IsSet(word, 2) then ErrorNotCompatibleDataFlagsSettings
    else NoError
  }

  lemma DemandsAreOfTheWord(i: Interface, minimum: nat, keeps: bool, id: seq<Byte>, version: nat, common: nat,
                            word: nat)
    ensures Demands(i, minimum, keeps, id, version, FlagsOf(common, word)) ==
            WordVerdict(i, minimum, keeps, id, version, word)
  {
    CompatibleIffWordSuits(i, common, word);
  }

  /** What a reader brings along: its byte order, its layouts, its memory, and a container for the objects it makes. */
  datatype Party = Party(host: bool, types: map<nat, Type>, held: map<Place, Value>, keeps: bool)

  /** The reader's context for a message with these settings. */
  function ContextFor(p: Party, f: Flags, version: nat): Context {
    Context(p.host, f, version, p.types, p.held)
  }

  /** The context of a data message for a reader, and where the body begins. */
  function ReadEnvelope(p: Party, i: Interface, minimum: nat, bin: Bin): Result<(Context, nat)> {
    var (_, _, common) :- ReadCommon(p.host, LATEST_PROTOCOL_VERSION, bin, 0);
    var format := FlagsOf(common, 0).bigEndianFormat;
    if |bin| < 24 then Err(ErrorOverflow) else
      var version :- ReadNumber(p.host, format, bin, 24, 4);
      var data :- ReadNumber(p.host, format, bin, 28, 4);
      var f := FlagsOf(common, data);
      var verdict := Demands(i, minimum, p.keeps, bin[8..24], version, f);
      if verdict != NoError then Err(verdict) else Ok((ContextFor(p, f, version), 32))
  }

  lemma CommonOctets(host: bool, version: nat, message: nat, f: Flags)
    requires version < 256 && message < 256
    ensures WriteCommon(host, version, message, f) ==
            if version != LATEST_PROTOCOL_VERSION then Err(ErrorNotSupportedProtocolVersion)
            else if host != f.bigEndianFormat && !f.endiannessDifference then Err(ErrorNotCompatibleCommonFlagsSettings)
            else Ok([version, 0, message, 0, CommonBits(f), 0, 0, 0])
  {
    EightOctets(host, version, message, CommonBits(f));
  }

  lemma EightOctets(host: bool, version: nat, message: nat, bits: nat)
    requires version < 256 && message < 256 && bits < 256
    ensures PrimitiveBytes(host, false, version, 2) + PrimitiveBytes(host, false, message, 2)
            + PrimitiveBytes(host, false, bits, 4) == [version, 0, message, 0, bits, 0, 0, 0]
  {
    SmallSpelt(host, version, 2);
    SmallSpelt(host, message, 2);
    SmallSpelt(host, bits, 4);
  }

  /** Why a data header is not written, said of the flag words. */
  function DataRefusal(i: Interface, version: nat, f: Flags): Status {
    if version < i.oldest || i.newest < version then ErrorNotSupportedInterfaceVersion
    else if f.checkRecursivePointers && !f.allowUnmanagedPointers then ErrorNotCompatibleDataFlagsSettings
    else if !WordSuits(DataBits(f), DataBits(i.mandatory), DataBits(i.forbidden)) then
      ErrorNotCompatibleDataFlagsSettings
    else NoError
  }

  lemma DataOctets(host: bool, i: Interface, version: nat, f: Flags)
    requires InterfaceOk(i) && version < Pow256(4)
    ensures var data, refusal := WriteData(host, i, version, f), DataRefusal(i, version, f);
            if refusal != NoError then data == Err(refusal) else
              && data.Ok? && |data.value| == 24 && data.value[..16] == i.id
              && Spells(data.value[16..20], f.bigEndianFormat, version)
              && Spells(data.value[20..24], f.bigEndianFormat, DataBits(f))
  {
    OwnWordSuitsIff(i, f);
    if DataRefusal(i, version, f) == NoError {
      FlagsRoundTrip(f);
      WidthsSuffice();
      var a := PrimitiveBytes(host, f.bigEndianFormat, version, 4);
      var b := PrimitiveBytes(host, f.bigEndianFormat, DataBits(f), 4);
      PrimitiveSpells(host, f.bigEndianFormat, version, 4);
      PrimitiveSpells(host, f.bigEndianFormat, DataBits(f), 4);
      assert (i.id + a + b)[16..20] == a && (i.id + a + b)[20..24] == b;
    }
  }

  /** When both headers are written, and where in them everything stands. */
  lemma EnvelopeOctets(w: Context, i: Interface)
    requires InterfaceOk(i) && w.interfaceVersion < Pow256(4)
    ensures var f, head, refusal := w.flags, WriteEnvelope(w, i), DataRefusal(i, w.interfaceVersion, w.flags);
            if w.bigEndianHost != f.bigEndianFormat && !f.endiannessDifference then
              head == Err(ErrorNotCompatibleCommonFlagsSettings)
            else if refusal != NoError then
              head == Err(refusal)
            else
              && head.Ok? && |head.value| == 32
              && head.value[..8] == [1, 0, 1, 0, CommonBits(f), 0, 0, 0] && head.value[8..24] == i.id
              && Spells(head.value[24..28], f.bigEndianFormat, w.interfaceVersion)
              && Spells(head.value[28..32], f.bigEndianFormat, DataBits(f))
  {
    var common := WriteCommon(w.bigEndianHost, LATEST_PROTOCOL_VERSION, DATA_MESSAGE, w.flags);
    var data := WriteData(w.bigEndianHost, i, w.interfaceVersion, w.flags);
    CommonOctets(w.bigEndianHost, LATEST_PROTOCOL_VERSION, DATA_MESSAGE, w.flags);
    DataOctets(w.bigEndianHost, i, w.interfaceVersion, w.flags);
    if common.Ok? && data.Ok? {
      assert |common.value| == 8;
      HeadersJoin(common.value, data.value);
    }
  }

  lemma HeadersJoin(common: seq<Byte>, data: seq<Byte>)
    requires |common| == 8 && |data| == 24
    ensures (common + data)[..8] == common && (common + data)[8..24] == data[..16]
    ensures (common + data)[24..28] == data[16..20] && (common + data)[28..32] == data[20..24]
  {
  }

  /** A number of one octet, little-endian. */
  lemma SmallSpelt(host: bool, n: nat, width: nat)
    requires n < 256 && 0 < width
    ensures PrimitiveBytes(host, false, n, width) == [n] + seq(width - 1, _ => 0)
  {
    SmallIsBelow(n, width);
    PrimitiveBytesHostIndependent(host, false, n, width);
    ZeroOctets(width - 1);
  }

  lemma {:induction false} SmallIsBelow(n: nat, width: nat)
    requires n < 256 && 0 < width
    ensures n < Pow256(width)
  {
    if width != 1 {
      SmallIsBelow(n, width - 1);
    }
  }

  lemma {:induction false} ZeroOctets(width: nat)
    ensures LittleEndian(0, width) == seq(width, _ => 0)
  {
    if width != 0 {
      ZeroOctets(width - 1);
    }
  }

  // ---------------------------------------------------------------- they arrive

  lemma NumberArrives(writer: bool, reader: bool, format: bool, n: nat, width: nat, bin: Bin, at: nat)
    requires n < Pow256(width) && At(bin, at, PrimitiveBytes(writer, format, n, width))
    ensures ReadNumber(reader, format, bin, at, width) == Ok(n)
  {
    PrimitiveRoundTrip(writer, reader, format, n, width);
  }

  lemma WidthsSuffice()
    ensures Pow256(2) == 65536 && Pow256(4) == 4294967296
  {
    assert Pow256(1) == 256;
    assert Pow256(3) == 16777216;
  }

  lemma CommonHostIndependent(host: bool, other: bool, message: nat, f: Flags)
    requires message < 65536
    requires (host == f.bigEndianFormat && other == f.bigEndianFormat) || f.endiannessDifference
    ensures WriteCommon(host, LATEST_PROTOCOL_VERSION, message, f) ==
            WriteCommon(other, LATEST_PROTOCOL_VERSION, message, f)
  {
    WidthsSuffice();
    FlagsRoundTrip(f);
    PrimitiveBytesHostIndependent(host, false, LATEST_PROTOCOL_VERSION, 2);
    PrimitiveBytesHostIndependent(other, false, LATEST_PROTOCOL_VERSION, 2);
    PrimitiveBytesHostIndependent(host, false, message, 2);
    PrimitiveBytesHostIndependent(other, false, message, 2);
    PrimitiveBytesHostIndependent(host, false, CommonBits(f), 4);
    PrimitiveBytesHostIndependent(other, false, CommonBits(f), 4);
  }

  lemma DataHostIndependent(host: bool, other: bool, i: Interface, version: nat, f: Flags)
    requires version < Pow256(4)
    ensures WriteData(host, i, version, f) == WriteData(other, i, version, f)
  {
    WidthsSuffice();
    FlagsRoundTrip(f);
    PrimitiveBytesHostIndependent(host, f.bigEndianFormat, version, 4);
    PrimitiveBytesHostIndependent(other, f.bigEndianFormat, version, 4);
    PrimitiveBytesHostIndependent(host, f.bigEndianFormat, DataBits(f), 4);
    PrimitiveBytesHostIndependent(other, f.bigEndianFormat, DataBits(f), 4);
  }

  /** The octets of both headers do not depend on the host that writes them. */
  lemma EnvelopeHostIndependent(w: Context, x: Context, i: Interface)
    requires w.flags == x.flags && w.interfaceVersion == x.interfaceVersion < Pow256(4)
    requires ByteOrderAccepted(w) && ByteOrderAccepted(x)
    ensures WriteEnvelope(w, i) == WriteEnvelope(x, i)
  {
    CommonHostIndependent(w.bigEndianHost, x.bigEndianHost, DATA_MESSAGE, w.flags);
    DataHostIndependent(w.bigEndianHost, x.bigEndianHost, i, w.interfaceVersion, w.flags);
  }

  lemma CommonArrives(writer: bool, reader: bool, message: nat, f: Flags, bin: Bin)
    requires message < 65536 && WriteCommon(writer, LATEST_PROTOCOL_VERSION, message, f).Ok?
    requires At(bin, 0, WriteCommon(writer, LATEST_PROTOCOL_VERSION, message, f).value)
    ensures ReadCommon(reader, LATEST_PROTOCOL_VERSION, bin, 0) ==
            if reader == f.bigEndianFormat || f.endiannessDifference
            then Ok((LATEST_PROTOCOL_VERSION, message, CommonBits(f)))
            else Err(ErrorNotCompatibleCommonFlagsSettings)
  {
    WidthsSuffice();
    FlagsRoundTrip(f);
    var a, b := PrimitiveBytes(writer, false, LATEST_PROTOCOL_VERSION, 2), PrimitiveBytes(writer, false, message, 2);
    var c := PrimitiveBytes(writer, false, CommonBits(f), 4);
    AtSplits(bin, 0, a + b, c);
    AtSplits(bin, 0, a, b);
    NumberArrives(writer, reader, false, LATEST_PROTOCOL_VERSION, 2, bin, 0);
    NumberArrives(writer, reader, false, message, 2, bin, 2);
    NumberArrives(writer, reader, false, CommonBits(f), 4, bin, 4);
  }

  /** The version field has two octets and only the lower one is looked at, so 257 passes for version 1. */
  lemma VersionFieldIsTruncated(writer: bool, reader: bool, n: nat, bin: Bin)
    requires n < 65536 && At(bin, 0, PrimitiveBytes(writer, false, n, 2))
    ensures ReadCommon(reader, LATEST_PROTOCOL_VERSION, bin, 0) == Err(ErrorNotSupportedProtocolVersion) <==>
            n % 256 != LATEST_PROTOCOL_VERSION
  {
    WidthsSuffice();
    NumberArrives(writer, reader, false, n, 2, bin, 0);
  }

  lemma DataArrives(writer: bool, reader: bool, i: Interface, version: nat, f: Flags, bin: Bin)
    requires InterfaceOk(i) && version < Pow256(4) && WriteData(writer, i, version, f).Ok?
    requires At(bin, 8, WriteData(writer, i, version, f).value)
    ensures 32 <= |bin| && bin[8..24] == i.id
    ensures ReadNumber(reader, f.bigEndianFormat, bin, 24, 4) == Ok(version)
    ensures ReadNumber(reader, f.bigEndianFormat, bin, 28, 4) == Ok(DataBits(f))
  {
    WidthsSuffice();
    FlagsRoundTrip(f);
    var b := PrimitiveBytes(writer, f.bigEndianFormat, version, 4);
    var c := PrimitiveBytes(writer, f.bigEndianFormat, DataBits(f), 4);
    AtSplits(bin, 8, i.id + b, c);
    AtSplits(bin, 8, i.id, b);
    NumberArrives(writer, reader, f.bigEndianFormat, version, 4, bin, 24);
    NumberArrives(writer, reader, f.bigEndianFormat, DataBits(f), 4, bin, 28);
  }

  /** How the parts of both headers make the outcome of the whole. */
  lemma EnvelopeForm(p: Party, j: Interface, minimum: nat, bin: Bin, version: nat, f: Flags)
    requires ReadCommon(p.host, LATEST_PROTOCOL_VERSION, bin, 0) ==
             Ok((LATEST_PROTOCOL_VERSION, DATA_MESSAGE, CommonBits(f)))
    requires 32 <= |bin| && ReadNumber(p.host, f.bigEndianFormat, bin, 24, 4) == Ok(version)
    requires ReadNumber(p.host, f.bigEndianFormat, bin, 28, 4) == Ok(DataBits(f))
    ensures ReadEnvelope(p, j, minimum, bin) ==
            var verdict := Demands(j, minimum, p.keeps, bin[8..24], version, f);
            if verdict != NoError then Err(verdict) else Ok((ContextFor(p, f, version), 32))
  {
    FlagsRoundTrip(f);
  }

  /**
    * Whatever the hosts, the reader recovers the writer's settings, or reports the first of its own demands
    * that the message does not meet.
    */
  lemma EnvelopeArrives(w: Context, p: Party, i: Interface, j: Interface, minimum: nat, rest: seq<Byte>)
    requires InterfaceOk(i) && w.interfaceVersion < Pow256(4) && WriteEnvelope(w, i).Ok?
    ensures var bytes, f, version := WriteEnvelope(w, i).value, w.flags, w.interfaceVersion;
            && |bytes| == 32
            && ReadEnvelope(p, j, minimum, bytes + rest) ==
               if p.host != f.bigEndianFormat && !f.endiannessDifference then Err(ErrorNotCompatibleCommonFlagsSettings)
               else if i.id != j.id then Err(ErrorMismatchOfStructId)
               else if version < minimum || j.newest < version then Err(ErrorNotSupportedInterfaceVersion)
               else if !WordSuits(DataBits(f), DataBits(j.mandatory), DataBits(j.forbidden)) then
                 Err(ErrorNotCompatibleDataFlagsSettings)
               else if f.allowUnmanagedPointers && !p.keeps then Err(ErrorInvalidArgument)
               else Ok((ContextFor(p, f, version), 32))
  {
    var f, bin := w.flags, WriteEnvelope(w, i).value + rest;
    EnvelopeParts(w, i);
    HeadersArrive(w, p, i, rest);
    if p.host == f.bigEndianFormat || f.endiannessDifference {
      EnvelopeForm(p, j, minimum, bin, w.interfaceVersion, f);
      OwnWordSuitsIff(j, f);
    } else {
      EnvelopeRefused(p, j, minimum, bin, ErrorNotCompatibleCommonFlagsSettings);
    }
  }

  /** What stands in both headers is what the reader finds there. */
  lemma HeadersArrive(w: Context, p: Party, i: Interface, rest: seq<Byte>)
    requires InterfaceOk(i) && w.interfaceVersion < Pow256(4) && WriteEnvelope(w, i).Ok?
    ensures var bin, f := WriteEnvelope(w, i).value + rest, w.flags;
            && ReadCommon(p.host, LATEST_PROTOCOL_VERSION, bin, 0) ==
               (if p.host == f.bigEndianFormat || f.endiannessDifference
                then Ok((LATEST_PROTOCOL_VERSION, DATA_MESSAGE, CommonBits(f)))
                else Err(ErrorNotCompatibleCommonFlagsSettings))
            && 32 <= |bin| && bin[8..24] == i.id
            && ReadNumber(p.host, f.bigEndianFormat, bin, 24, 4) == Ok(w.interfaceVersion)
            && ReadNumber(p.host, f.bigEndianFormat, bin, 28, 4) == Ok(DataBits(f))
  {
    var f, bin := w.flags, WriteEnvelope(w, i).value + rest;
    var common := WriteCommon(w.bigEndianHost, LATEST_PROTOCOL_VERSION, DATA_MESSAGE, f).value;
    var data := WriteData(w.bigEndianHost, i, w.interfaceVersion, f).value;
    EnvelopeParts(w, i);
    assert At(bin, 0, common + data);
    AtSplits(bin, 0, common, data);
    CommonArrives(w.bigEndianHost, p.host, DATA_MESSAGE, f, bin);
    DataArrives(w.bigEndianHost, p.host, i, w.interfaceVersion, f, bin);
  }

  lemma EnvelopeRefused(p: Party, j: Interface, minimum: nat, bin: Bin, error: Status)
    requires ReadCommon(p.host, LATEST_PROTOCOL_VERSION, bin, 0) == Err(error)
    ensures ReadEnvelope(p, j, minimum, bin) == Err(error)
  {
  }

  lemma EnvelopeParts(w: Context, i: Interface)
    requires InterfaceOk(i) && WriteEnvelope(w, i).Ok?
    ensures WriteCommon(w.bigEndianHost, LATEST_PROTOCOL_VERSION, DATA_MESSAGE, w.flags).Ok?
    ensures WriteData(w.bigEndianHost, i, w.interfaceVersion, w.flags).Ok?
    ensures |WriteCommon(w.bigEndianHost, LATEST_PROTOCOL_VERSION, DATA_MESSAGE, w.flags).value| == 8
    ensures |WriteEnvelope(w, i).value| == 32
    ensures !(w.flags.checkRecursivePointers && !w.flags.allowUnmanagedPointers)
  {
  }

  // ---------------------------------------------------------------- whole messages

  function WriteMessage(w: Context, heap: Heap, i: Interface, t: Type, v: Value): Result<Out>
    requires CanSend(w, heap, t, v)
  {
    var envelope :- WriteEnvelope(w, i);
    Body(w, heap, t, v, envelope)
  }

  /** The state of a reader behind the headers. */
  function BodyStart(at: nat): In {
    In(at, map[], 0, map[], [])
  }

  /** Both headers meet the reader's demands. */
  predicate Accepts(p: Party, i: Interface, j: Interface, minimum: nat, f: Flags, version: nat) {
    && (p.host == f.bigEndianFormat || f.endiannessDifference)
    && i.id == j.id && minimum <= version <= j.newest
    && WordSuits(DataBits(f), DataBits(j.mandatory), DataBits(j.forbidden))
    && (f.allowUnmanagedPointers ==> p.keeps)
  }

  /**
    * A message one party has written, read by another: it is accepted if and only if its headers meet the
    * reader's demands. The reader's context is then the writer's peer; the body gives the value sent exactly when
    * the reader's types can hold it, up to an isomorphism unless the body misleads.
    */
  lemma MessageRoundTrip(w: Context, p: Party, heap: Heap, i: Interface, j: Interface, minimum: nat, t: Type, u: Type,
                         v: Value)
    requires InterfaceOk(i) && w.interfaceVersion < Pow256(4)
    requires CanSend(w, heap, t, v) && WriteMessage(w, heap, i, t, v).Ok?
    requires var r := ContextFor(p, w.flags, w.interfaceVersion);
             ByteOrderAccepted(r) ==> Setup(w, r, heap) && Paired(w, r, t, u)
    ensures var bin, header := WriteMessage(w, heap, i, t, v).value.bin, WriteEnvelope(w, i).value;
            var envelope := ReadEnvelope(p, j, minimum, bin);
            && (envelope.Ok? <==> Accepts(p, i, j, minimum, w.flags, w.interfaceVersion))
            && (envelope.Ok? ==> BodyRebuilt(envelope.value.0, heap, u, v, bin, envelope.value.1,
                                             BodyNaming(w, heap, t, v, header, 0), Misleads(w, heap, t, v, header)))
  {
    var header := WriteEnvelope(w, i).value;
    var bin := WriteMessage(w, heap, i, t, v).value.bin;
    var rest := bin[|header|..];
    MessageParts(w, heap, i, t, v);
    EnvelopeArrives(w, p, i, j, minimum, rest);
    var r := ContextFor(p, w.flags, w.interfaceVersion);
    if ByteOrderAccepted(r) {
      BodyArrives(w, r, heap, t, u, v, header);
    }
  }

  /** The headers come first, and the body is written behind them. */
  lemma MessageParts(w: Context, heap: Heap, i: Interface, t: Type, v: Value)
    requires InterfaceOk(i) && CanSend(w, heap, t, v) && WriteMessage(w, heap, i, t, v).Ok?
    ensures WriteEnvelope(w, i).Ok?
    ensures var header, message := WriteEnvelope(w, i).value, WriteMessage(w, heap, i, t, v);
            && message == Body(w, heap, t, v, header) && |header| <= |message.value.bin|
            && message.value.bin == header + message.value.bin[|header|..]
  {
    var header, bin := WriteEnvelope(w, i).value, WriteMessage(w, heap, i, t, v).value.bin;
    assert header <= bin;
  }

  /** The whole rest of `bin` is the body, and what it gives. */
  ghost predicate BodyRebuilt(r: Context, heap: Heap, u: Type, v: Value, bin: Bin, at: nat, phi: Naming,
                              misleads: bool) {
    && Readable(r, bin, u, BodyStart(at))
    && RoundTrips(r, u, Root(0), heap, v, Read(r, bin, u, Root(0), BodyStart(at)), BodyStart(at), phi, |bin|, misleads)
  }

  lemma BodyArrives(w: Context, r: Context, heap: Heap, t: Type, u: Type, v: Value, header: seq<Byte>)
    requires Sent(w, r, heap, t, u, v, header)
    ensures BodyRebuilt(r, heap, u, v, Body(w, heap, t, v, header).value.bin, |header|,
                        BodyNaming(w, heap, t, v, header, 0), Misleads(w, heap, t, v, header))
  {
    var bin := Body(w, heap, t, v, header).value.bin;
    GraphRoundTrip(w, r, heap, t, u, v, header, [], 0, BodyStart(|header|));
    assert bin + [] == bin;
  }
}
