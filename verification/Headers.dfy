/** The header processors as they run: a stream that grows, and a context whose fields are filled in on the way. */
module Headers {
  import opened Status
  import opened Bytes
  import opened Types
  import opened Message

  lemma Concatenated(a: seq<Byte>, b: seq<Byte>, c: seq<Byte>, d: seq<Byte>)
    ensures ((a + b) + c) + d == a + (b + c + d)
  {
  }

  /** The sending side of a data message, up to its body. */
  class Outgoing {
    const context: Context
    var bin: seq<Byte>

    constructor (context: Context)
      ensures this.context == context && bin == []
    {
      this.context := context;
      bin := [];
    }

    method WritePrimitive(format: bool, n: nat, width: nat)
      requires n < Pow256(width)
      modifies this
      ensures bin == old(bin) + PrimitiveBytes(context.bigEndianHost, format, n, width)
    {
      var value := if context.bigEndianHost != format && width > 1 then ReverseEndianness(n, width) else n;
      bin := bin + Native(context.bigEndianHost, value, width);
    }

    /** The common header is written as if no flag were set. */
    method SerializeCommon(version: nat, message: nat) returns (status: Status)
      requires version < 65536 && message < 65536
      modifies this
      ensures match WriteCommon(context.bigEndianHost, version, message, context.flags)
              case Ok(s) => status == NoError && bin == old(bin) + s
              case Err(e) => status == e && bin == old(bin)
    {
      WidthsSuffice();
      if version != LATEST_PROTOCOL_VERSION {
        return ErrorNotSupportedProtocolVersion;
      }
      if context.bigEndianHost != context.flags.bigEndianFormat && !context.flags.endiannessDifference {
        return ErrorNotCompatibleCommonFlagsSettings;
      }
      WritePrimitive(false, version, 2);
      WritePrimitive(false, message, 2);
      WritePrimitive(false, CommonBits(context.flags), 4);
      return NoError;
    }

    method SerializeData(i: Interface) returns (status: Status)
      requires context.interfaceVersion < Pow256(4)
      modifies this
      ensures match WriteData(context.bigEndianHost, i, context.interfaceVersion, context.flags)
              case Ok(s) => status == NoError && bin == old(bin) + s
              case Err(e) => status == e
      ensures status == DataRefusal(i, context.interfaceVersion, context.flags)
    {
      OwnWordSuitsIff(i, context.flags);
      WidthsSuffice();
      var f := context.flags;
      ghost var start := bin;
      ghost var version := PrimitiveBytes(context.bigEndianHost, f.bigEndianFormat, context.interfaceVersion, 4);
      bin := bin + i.id;
      if context.interfaceVersion < i.oldest || i.newest < context.interfaceVersion {
        return ErrorNotSupportedInterfaceVersion;
      }
      WritePrimitive(f.bigEndianFormat, context.interfaceVersion, 4);
      if f.checkRecursivePointers && !f.allowUnmanagedPointers {
        return ErrorNotCompatibleDataFlagsSettings;
      }
      if !DataFlagsCompatible(i, f) {
        return ErrorNotCompatibleDataFlagsSettings;
      }
      FlagsRoundTrip(f);
      WritePrimitive(f.bigEndianFormat, DataBits(f), 4);
      ghost var data := PrimitiveBytes(context.bigEndianHost, f.bigEndianFormat, DataBits(f), 4);
      Concatenated(start, i.id, version, data);
      return NoError;
    }

    method SerializeEnvelope(i: Interface) returns (status: Status)
      requires context.interfaceVersion < Pow256(4)
      modifies this
      ensures match WriteEnvelope(context, i)
              case Ok(s) => status == NoError && bin == old(bin) + s
              case Err(e) => status == e
    {
      ghost var start, host, f := bin, context.bigEndianHost, context.flags;
      ghost var common := WriteCommon(host, LATEST_PROTOCOL_VERSION, DATA_MESSAGE, f);
      ghost var data := WriteData(host, i, context.interfaceVersion, f);
      status := SerializeCommon(LATEST_PROTOCOL_VERSION, DATA_MESSAGE);
      if status != NoError {
        return;
      }
      status := SerializeData(i);
      if status == NoError {
        Concatenated(start, common.value, data.value, []);
        assert bin + [] == bin && common.value + data.value + [] == common.value + data.value;
      }
    }
  }

  /** The receiving side: what the headers say is stored as it is read. */
  class Incoming {
    const host: bool
    const bin: seq<Byte>
    var cursor: nat
    var protocolVersion: nat
    var messageType: nat
    var commonBits: nat
    var dataBits: nat
    var interfaceVersion: nat

    constructor (host: bool, bin: seq<Byte>)
      ensures this.host == host && this.bin == bin && cursor == 0 && protocolVersion == LATEST_PROTOCOL_VERSION
    {
      this.host, this.bin := host, bin;
      cursor, protocolVersion := 0, LATEST_PROTOCOL_VERSION;
      messageType, commonBits, dataBits, interfaceVersion := DATA_MESSAGE, 0, 0, 0;
    }

    method ReadPrimitive(format: bool, width: nat) returns (status: Status, n: nat)
      modifies this`cursor
      ensures match ReadNumber(host, format, bin, old(cursor), width)
              case Ok(m) => status == NoError && n == m && cursor == old(cursor) + width
              case Err(e) => status == e
    {
      if |bin| < cursor + width {
        return ErrorOverflow, 0;
      }
      var raw := bin[cursor..cursor + width];
      n := FromNative(host, raw);
      if host != format && width > 1 {
        n := ReverseEndianness(n, width);
      }
      cursor := cursor + width;
      status := NoError;
    }

    /** The version field of a stream that has one, cut to an octet. */
    ghost function VersionField(): nat
      requires 2 <= |bin|
    {
      PrimitiveValue(host, false, bin[0..2]) % 256
    }

    /**
      * The protocol version that is set beforehand is the oldest one accepted. Each field is set as soon as it
      * has been read, the version even when it is refused.
      */
    method DeserializeCommon() returns (status: Status)
      requires cursor == 0
      modifies this
      ensures match ReadCommon(host, old(protocolVersion), bin, 0)
              case Ok((version, message, bits)) =>
                && status == NoError && cursor == 8
                && protocolVersion == version && messageType == message && commonBits == bits
              case Err(e) => status == e
      ensures protocolVersion == if 2 <= |bin| then VersionField() else old(protocolVersion)
      ensures var accepted := 2 <= |bin| && old(protocolVersion) <= VersionField() <= LATEST_PROTOCOL_VERSION;
              && messageType ==
                 (if accepted && 4 <= |bin| then PrimitiveValue(host, false, bin[2..4]) else old(messageType))
              && commonBits ==
                 (if accepted && 8 <= |bin| then PrimitiveValue(host, false, bin[4..8]) else old(commonBits))
      ensures dataBits == old(dataBits) && interfaceVersion == old(interfaceVersion)
      ensures status == if |bin| < 2 then ErrorOverflow
                        else if VersionField() < old(protocolVersion) || LATEST_PROTOCOL_VERSION < VersionField() then
                          ErrorNotSupportedProtocolVersion
                        else if |bin| < 8 then ErrorOverflow
                        else if host != IsSet(commonBits, 1) && !IsSet(commonBits, 2) then
                          ErrorNotCompatibleCommonFlagsSettings
                        else NoError
    {
      var minimum, n := protocolVersion, 0;
      status, n := ReadPrimitive(false, 2);
      if status != NoError {
        return;
      }
      protocolVersion := n % 256;
      if minimum > protocolVersion || LATEST_PROTOCOL_VERSION < protocolVersion {
        return ErrorNotSupportedProtocolVersion;
      }
      status, n := ReadPrimitive(false, 2);
      if status != NoError {
        return;
      }
      messageType := n;
      status, n := ReadPrimitive(false, 4);
      if status != NoError {
        return;
      }
      commonBits := n;
      var f := FlagsOf(commonBits, 0);
      if host != f.bigEndianFormat && !f.endiannessDifference {
        return ErrorNotCompatibleCommonFlagsSettings;
      }
    }

    /** The data header; its demands are tested once all of it has been read. */
    method DeserializeData(ghost p: Party, i: Interface, minimum: nat, keeps: bool) returns (status: Status)
      requires cursor == 8 && p.host == host && p.keeps == keeps
      requires var common := ReadCommon(host, LATEST_PROTOCOL_VERSION, bin, 0);
               common.Ok? && common.value.2 == commonBits
      modifies this`cursor, this`interfaceVersion, this`dataBits
      ensures match ReadEnvelope(p, i, minimum, bin)
              case Ok((c, at)) =>
                && status == NoError && cursor == at == 32
                && c == ContextFor(p, FlagsOf(commonBits, dataBits), interfaceVersion)
              case Err(e) => status == e
      ensures var format := FlagsOf(commonBits, 0).bigEndianFormat;
              && interfaceVersion ==
                 (if 28 <= |bin| then PrimitiveValue(host, format, bin[24..28]) else old(interfaceVersion))
              && dataBits == (if 32 <= |bin| then PrimitiveValue(host, format, bin[28..32]) else old(dataBits))
      ensures status == if 32 <= |bin| then WordVerdict(i, minimum, keeps, bin[8..24], interfaceVersion, dataBits)
                        else ErrorOverflow
    {
      var format, n := FlagsOf(commonBits, 0).bigEndianFormat, 0;
      if |bin| < cursor + 16 {
        return ErrorOverflow;
      }
      var id := bin[cursor..cursor + 16];
      cursor := cursor + 16;
      status, n := ReadPrimitive(format, 4);
      if status != NoError {
        return;
      }
      interfaceVersion := n;
      status, n := ReadPrimitive(format, 4);
      if status != NoError {
        return;
      }
      dataBits := n;
      status := TestDemands(i, minimum, keeps, id);
    }

    method TestDemands(i: Interface, minimum: nat, keeps: bool, id: seq<Byte>) returns (status: Status)
      ensures status == Demands(i, minimum, keeps, id, interfaceVersion, FlagsOf(commonBits, dataBits))
      ensures status == WordVerdict(i, minimum, keeps, id, interfaceVersion, dataBits)
    {
      DemandsAreOfTheWord(i, minimum, keeps, id, interfaceVersion, commonBits, dataBits);
      var f := FlagsOf(commonBits, dataBits);
      if id != i.id {
        return ErrorMismatchOfStructId;
      }
      if interfaceVersion < minimum || i.newest < interfaceVersion {
        return ErrorNotSupportedInterfaceVersion;
      }
      if !DataFlagsCompatible(i, f) {
        return ErrorNotCompatibleDataFlagsSettings;
      }
      if f.allowUnmanagedPointers && !keeps {
        return ErrorInvalidArgument;
      }
      if f.checkRecursivePointers && !f.allowUnmanagedPointers {
        return ErrorNotCompatibleDataFlagsSettings;
      }
      status := NoError;
    }

    method DeserializeEnvelope(ghost p: Party, i: Interface, minimum: nat, keeps: bool) returns (status: Status)
      requires cursor == 0 && protocolVersion == LATEST_PROTOCOL_VERSION && p.host == host && p.keeps == keeps
      modifies this
      ensures match ReadEnvelope(p, i, minimum, bin)
              case Ok((c, at)) =>
                && status == NoError && cursor == at
                && c == ContextFor(p, FlagsOf(commonBits, dataBits), interfaceVersion)
              case Err(e) => status == e
    {
      status := DeserializeCommon();
      if status == NoError {
        status := DeserializeData(p, i, minimum, keeps);
      }
    }
  }
}
