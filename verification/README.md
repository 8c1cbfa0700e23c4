# A model of the CSP serialization library and its messaging layer

CSP is a C++ library that serializes trees of types, with shared and cyclic pointers if need be, under flags that
say how far two hosts may differ, and a client/server layer that carries such bodies as messages. This project
models its hard parts in Dafny and proves what they promise. `dafny verify dfyconfig.toml` checks all of it.

## How it is put together

* `Status`, `Bytes`, `Words`: error codes; octets, byte orders and primitives; the shift-and-mask reversals on
  machine words.
* `Types`, `Layout`, `Twins`: type trees with explicit widths, tags and padding; memory images; one type as two
  hosts see it.
* `Writer`, `Reader`: the body codec as two functions on explicit state. The writer's measure (objects not yet in
  the pointers map, the type, the number of items left) is its proof of termination on cyclic heaps.
  `Serializer` and `Deserializer` hold the code as it runs: contexts that are written to and read from in loops,
  each method proved equal to these functions.
* `Wire`, `Extent`: the format stated on flags, types, versions and octets alone, apart from the functions that write
  it; how far a write reaches, and exactly when it succeeds. `Truncation`, `AnyBody`: reading octets that nobody need
  have written.
* `Graph`, `Leaves`, `Outcomes`, `Steps`, `Exchanges`, `RoundTrip`: the induction behind the round trip. `Offsets`: the
  offsets recorded for pointees. `Isomorphism`: whole bodies, up to graph isomorphism. `Limits`: where that ends.
* `Unfolding`, `Acyclic`: pointers without the check of recursive pointers, as trees.
* `Message`, `Headers`: the two headers, as functions and as they run, and whole messages.
* `Registrar`, `RegistrarSafety`, `RegistrarRuns`, `RegistrarCode`: the handler registrar as a transition system,
  its invariant, what follows for every run, and the methods with their loops. `Server`: unicast and multicast delivery.
* `Slots`, `Vectors`: copying and moving over partly constructed memory; the vector over its buffer.
* `Versions`, `OldVersions`: version chains, and an old version that travels as bytes. `Negotiation`: what two parties
  agree on.

Serialized objects are a finite map from addresses to cells. A value reaches the objects in every closed set that
holds its pointers. The reader names the objects it makes in order of allocation, so "new" means "numbered from
`next` on". Registration of array elements in the pointers maps is modelled with references of their own; a first field
or first element has the address of the object around it. A reader's memory is a map from places to values: what it
holds at a place stays there when a struct is skipped, and the value a read "settles on" is the one written with every
skipped struct replaced by what was held, and every map by what inserting its entries one by one then makes of it. The
reader keeps book of the entries that insert turns away; the objects they point to are made all the same. The writer's
state keeps book of the objects that are lost, those at whose offset another address has been registered since; a body
misleads when it refers back to one of them.

## What the proofs found

* A pointee that writes no octets stands at the offset of whatever follows it. If that is an array element, its
  registration takes the offset away from the object, and a later reference back to the object leads the reader to the
  element. A body comes back as an isomorphic graph if and only if it holds no such reference
  (`Isomorphism.GraphRoundTrip`; one in a map entry that is turned away does no harm): two equal pointers in a vector do
  (`Limits.SilentPointeeIsLost`), the same two pointers in a struct do not (`Limits.SilentPointeeInStruct`), and no body
  does whose pointee types put an octet before anything they register (`Isomorphism.OpenPointeesNeverMislead`).
* A tagged struct without processing functions of its own, sent where byte orders may differ or with too old an interface
  version, is reported as a success on both sides while nothing is written and the target is left as it was. A graph
  comes back if and only if every such struct equals what the reader held in its place (`Isomorphism.GraphComesBackIff`,
  `Isomorphism.ValueRoundTrip`). `CSP.txt:1635-1656` asks for its fields one by one instead, which nothing serializes;
  the model follows the code. A map keyed by such structs arrives with one entry (`Limits.SkippedKeysCollide`).
* With size tags and an endianness difference, an array of one-octet integers and one of wider integers have different
  layouts; they agree for exactly one element (`Limits.OctetArrayAtWideReader`, `Limits.WideArrayAtOctetReader`).
* Without the check of recursive pointers the serializer comes to an end exactly on values from which no object leads
  back to itself (`Acyclic.UnfoldsIffNoCycle`); sharing is then lost, every pointer met makes an object of its own, and
  nothing else is (`Unfolding.UnfoldingRoundTrip`).
* Reserved flag bits are masked before they are tested, so they never reject a message (`Message.ReservedBitsAreDropped`);
  the protocol version is cut to one octet before it is compared (`Message.VersionFieldIsTruncated`).
* Upgrading an old struct asks whether the latest version can be initialized from each version on the way, although only
  the step to the next one is taken; chains that lead from version to version alone are refused (`Versions.ConvertUpFolds`).
* An insertion of an iterator range that runs out of memory leaves either its first elements over as many old ones, or all
  of them with the old elements behind the insertion point dropped. Where it can fail follows from sizes and capacity
  before the call, each such place is reached by some answers of the allocator, and so the inputs on which a failure is
  harmless are known exactly (`Vectors.FailuresKeepIff`). All other operations leave the contents alone on every error.
* The last user of an entry whose service it has just woken searches the handler list without the lock, for a handler
  read from that entry. The search never finds anything while the entry is there; but the unregisterService it has woken
  may erase the entry first, and with an unregisterHandler of another service pending an erased entry is then read
  (`RegistrarRuns.SearchLosesEntryIff`, `RegistrarRuns.ErasedIsRead`).

## Model

| member | source | states |
|---|---|---|
| Isomorphism.GraphRoundTrip | csp_base/include/common_serialization/csp_base/processing/data/BodyProcessor.h:210-426 | a body written without error is read back on any peer, from any state of the pointers map, into any memory and with any bytes behind it, if and only if the reader's types can hold every integer reached that travels; the only other outcome is the value overflow; a success consumes exactly the bytes written, and the new objects, numbered in the order of their recorded offsets, stand in a bijection to the reachable addresses that commutes with type and every field, skipped structs being what was held and maps keeping the first entry of each key, if and only if no reference back is to an object whose offset an array element has taken, save in a map entry that has been turned away; if this naming is no such bijection, none is |
| Isomorphism.GraphComesBackIff | csp_base/include/common_serialization/csp_base/processing/data/BodyProcessor.h:493-542 | value and objects themselves come back, not only as they settle, if and only if everything fits, the body does not mislead, and every skipped struct reached equals what the reader held in its place; the places are those of the numbers that the writer's offsets give, so that all of it can be tested before the read |
| Isomorphism.NumbersAreByOffset | csp_base/include/common_serialization/csp_base/processing/data/BodyProcessor.h:413-425 | numbers without gaps that follow the recorded offsets are the ranks of those offsets: the number a reader gives an object is its first free number plus how many objects are recorded below it |
| Isomorphism.OpenPointeesNeverMislead | csp_base/include/common_serialization/csp_base/processing/data/BodyProcessor.h:350-358 | a condition on types alone under which no body misleads: every pointee type puts an octet before it registers an address other than its own |
| Isomorphism.WriteRecordsReach | csp_base/include/common_serialization/csp_base/processing/data/BodyProcessor.h:559-583 | after any successful write of a body the pointers map lists exactly the addresses the value reaches, whatever the types and flags |
| Isomorphism.ValueRoundTrip | csp_base/include/common_serialization/csp_base/processing/data/BodyProcessor.h:155-259 | for every pointer-free type tree and every flag set the header processors accept, allowUnmanagedPointers without checkRecursivePointers included: a read succeeds exactly when what travels fits, gives the value settled, maps whose keys settle alike included, and gives the value itself exactly when every skipped struct equals what was held; exactly the bytes behind it are left, and no object is made |
| Isomorphism.UnskippedValueComesBack | csp_base/include/common_serialization/csp_base/processing/data/BodyProcessor.h:493-523 | a type tree in which no struct is skipped leaves nothing to the reader's memory |
| Isomorphism.BodyOffsets | csp_base/include/common_serialization/csp_base/processing/data/BodyProcessor.h:566-583 | for every body, pointees that write nothing included, recorded offsets lie behind its beginning, are never the markers 0 and 1, and no two objects share one |
| Offsets.WriteKeeps | csp_base/include/common_serialization/csp_base/processing/data/BodyProcessor.h:210-246 | every write, unconditionally, keeps older records and adds newer ones strictly behind all output there was |
| Offsets.BackReferenceIsBelow | csp_base/include/common_serialization/csp_base/processing/data/BodyProcessor.h:566-583 | every reference back is written as an offset that is no marker and lies below the end of the output it makes |
| Offsets.WriteHarmsNothing | csp_base/include/common_serialization/csp_base/processing/data/BodyProcessor.h:189-195 | a write loses no object and misleads nobody if it puts an octet between the objects recorded and what it registers |
| RoundTrip.ValueArrives | csp_base/include/common_serialization/csp_base/processing/data/BodyProcessor.h:375-426 | the induction behind the round trip, for every type tree: reader and writer stay in step over every value, the naming of objects only grows and follows the offsets, and a pointer to an array element turns up, in the value, in an object or in a map entry turned away, exactly when the writer has noted a misleading one |
| RoundTrip.BackDone | csp_base/include/common_serialization/csp_base/processing/data/BodyProcessor.h:586-611 | a reference back finds what is registered at its offset, the object or the element that has taken it, and the reader's range check does not fire on it, for both size-field widths |
| RoundTrip.PointeeDone | csp_base/include/common_serialization/csp_base/processing/data/BodyProcessor.h:413-425 | a pointee met for the first time becomes one new object, registered at the offset the writer recorded and holding the pointee as it settles |
| Steps.EntriesAreElems | csp_std_structs_processing/include/common_serialization/csp_std_structs_processing/csp_processing_data/TemplateProcessorStd.h:127-145 | reading a map is reading its entries as a sequence and then inserting them one by one, a key that is there turning its entry away; it fails exactly as reading the sequence does |
| Isomorphism.WriteStaysInside | csp_base/include/common_serialization/csp_base/processing/data/BodyProcessor.h:566-583 | a write records no address outside any closed set that holds its pointers |
| Writer.Write | csp_base/include/common_serialization/csp_base/processing/data/BodyProcessor.h:210-256 | one value, every branch; output and records only grow; terminates on every finite heap, cyclic ones included; which branch is taken, and what it puts on the wire, is stated by `Wire.StructTravels`, `Wire.ArrayTravels`, `Wire.PointerOctets`, `Wire.ContainerTravels` and `Wire.ScalarOctets` |
| Reader.Read | csp_base/include/common_serialization/csp_base/processing/data/BodyProcessor.h:375-435 | one value, every branch, pointers with and without the check of recursive pointers; on every input the cursor moves forward within it, exactly the objects allocated are made, no more of them than octets are consumed, and earlier ones stay as they are; what each mark means is stated by `AnyBody.ReferenceIsRead` and `Unfolding.UncheckedPointerReads` |
| Wire.StructTravels | csp_base/include/common_serialization/csp_base/processing/data/BodyProcessor.h:493-523 | for each set of tags, on flags and interface version alone: a struct is copied as its memory image if no octets need swapping, its version is not older, the optimizations are on and one of the four tags suits; a tagged one without functions of its own is passed over if it is the order or the version that stands in the way, and refused otherwise; any other is written field by field |
| Wire.ArrayTravels | csp_base/include/common_serialization/csp_base/processing/data/BodyProcessor.h:155-199 | the same decision for arrays: nothing for an empty type, one block of memory images behind at most one size tag, or element by element |
| Wire.FieldStandsAtOffset | csp_base/include/common_serialization/csp_base/processing/data/BodyProcessor.h:493-519 | in a memory image each field stands at the sum of the sizes and paddings before it |
| Wire.ScalarOctets | csp_base/include/common_serialization/csp_base/processing/rw.h:33-45 | a scalar is its two's complement in the message's byte order, digit by digit, behind an octet with its width if widths may differ and this one may |
| Wire.SizeIsSpelt | csp_base/include/common_serialization/csp_base/processing/data/BodyProcessor.h:259-277 | a size takes four or eight octets that spell it, or is the value overflow from the first number on that does not fit |
| Wire.ContainerTravels | csp_std_structs_processing/include/common_serialization/csp_std_structs_processing/csp_processing_data/TemplateProcessorStd.h:40-46 | a container is its number of items and then the items, a string's with a zero behind its units |
| Wire.PointerOctets | csp_base/include/common_serialization/csp_base/processing/data/BodyProcessor.h:559-583 | what a pointer writes of its own: 0 for null, the offset at which an object met before began, 1 for a new one, which is recorded just behind it |
| Extent.WriteMatches | csp_base/include/common_serialization/csp_base/processing/data/BodyProcessor.h:210-256 | a write succeeds exactly when types, flags, versions and sizes admit all that it meets and every offset referred to again fits the size field; its length and the offsets of its objects are then those measured without writing |
| Extent.BodySucceedsIff | csp_base/include/common_serialization/csp_base/processing/data/BodyProcessor.h:210-256 | a body is written without error if and only if pointers stand only where they are allowed, every tagged struct without functions travels raw or is passed over, numbers of items fit, all this for the value and for each object it reaches, and no reference back is to an offset beyond the size field |
| Truncation.PartOfABodyIsRefused | csp_base/include/common_serialization/csp_base/processing/data/BodyProcessor.h:375-435 | a written body cut short anywhere is never read as the body: the error is the overflow or the corruption of missing octets, or the value overflow of a number met before that does not fit |
| Truncation.ReadCut | csp_base/include/common_serialization/csp_base/processing/data/BodyProcessor.h:375-435 | for any octets, types and flags: of the first n octets of a body the reader makes what it makes of all of them if it ends within these, and fails for want of octets if it ends beyond; no encoding begins with another |
| Truncation.OctetsBehindDoNotMatter | csp_base/include/common_serialization/csp_base/processing/data/BodyProcessor.h:375-435 | what a successful read gives depends on the octets it consumes and on no others |
| AnyBody.NothingDangles | csp_base/include/common_serialization/csp_base/processing/data/BodyProcessor.h:586-611 | whatever the octets are, a successful read leaves no dangling pointer, neither in the value nor in the objects made: each is null, leads to an object made by this read, or to an array element within what has been consumed; and no more objects are made than octets consumed |
| AnyBody.ReferenceIsRead | csp_base/include/common_serialization/csp_base/processing/data/BodyProcessor.h:586-611 | on the number the octets spell: 0 is null, 1 a new object registered behind its mark, an offset ahead of the cursor an error, any other what is registered there, or null and then registered as null |
| AnyBody.ScalarIsRead | csp_base/include/common_serialization/csp_base/processing/data/BodyProcessor.h:443-490 | any octets for a scalar, of its own or of a tagged width: the number they spell if the variable can hold it, else the value overflow; an unknown width, octets missing at the own width and octets missing at another each have their own error |
| AnyBody.SizeIsRead | csp_base/include/common_serialization/csp_base/processing/data/BodyProcessor.h:279-299 | a size is the number its octets spell, on any host; missing octets are the overflow for eight and corruption for four |
| Unfolding.UncheckedPointerReads | csp_base/include/common_serialization/csp_base/processing/data/BodyProcessor.h:407-426 | without the check an octet 0 gives null, one octet consumed and nothing made; any other octet gives a new object numbered next that holds what is read behind the octet |
| Unfolding.UnfoldingRoundTrip | csp_base/include/common_serialization/csp_base/processing/data/BodyProcessor.h:238-246 | without the check, what a value unfolds to is what the reader's value unfolds to, as it settles, between any two peers; it gets an object of its own for every non-null pointer met, consumes exactly what was written, and fails exactly when an integer does not fit |
| Unfolding.UnfoldingIsUnique | csp_base/include/common_serialization/csp_base/processing/data/BodyProcessor.h:238-246 | a value has one unfolding at most |
| Acyclic.UnfoldsIffNoCycle | csp_base/include/common_serialization/csp_base/processing/data/BodyProcessor.h:238-246 | a value has an unfolding, so that writing it without the check comes to an end, if and only if no object it leads to leads back to itself |
| Twins.GatesAgree | csp_base/include/common_serialization/csp_base/processing/data/BodyProcessor.h:168-180 | writer and reader always choose the same branch, raw block or element by element, and a raw struct has one layout on both hosts |
| Twins.BlockBytesAgree | csp_base/include/common_serialization/csp_base/processing/data/BodyProcessor.h:493-523 | a raw block means the same value on both hosts, whatever their byte orders |
| Layout.RawDecodes | csp_base/include/common_serialization/csp_base/processing/rw.h:48-87 | the memory image of a plain value restores it, padding aside |
| Layout.OctetsIgnoreEndianness | csp_base/include/common_serialization/csp_base/processing/data/BodyProcessor.h:168-170 | what makes a type tolerant: an image made of single octets is the same in both byte orders |
| Leaves.PrimArrives | csp_base/include/common_serialization/csp_base/processing/data/BodyProcessor.h:443-490 | an integer written at one width and read at another is the same number if it is in range there, and the value overflow otherwise |
| Leaves.ArrayBlockArrives | csp_base/include/common_serialization/csp_base/processing/data/BodyProcessor.h:328-351 | a raw array, with or without its size tag, restores all elements and consumes its bytes, or reports the overflow when one does not fit |
| Leaves.PrimsAsArrive | csp_base/include/common_serialization/csp_base/processing/data/BodyProcessor.h:330-346 | an array of integers of another width is converted element by element, any length |
| Leaves.SizeArrives | csp_base/include/common_serialization/csp_base/processing/data/BodyProcessor.h:259-299 | a size written in four or eight octets is read back as written on any host |
| Limits.SilentPointeeIsLost | csp_base/include/common_serialization/csp_base/processing/data/BodyProcessor.h:350-358 | for every pointee type that writes nothing, a vector of two equal pointers misleads, so no reader rebuilds the graph that was sent |
| Limits.SilentPointeeInStruct | csp_base/include/common_serialization/csp_base/processing/data/BodyProcessor.h:210-246 | a struct of the same two pointers never misleads |
| Limits.SkippedKeysCollide | csp_std_structs_processing/include/common_serialization/csp_std_structs_processing/csp_processing_data/TemplateProcessorStd.h:127-145 | a map keyed by a struct that is skipped arrives, from any non-empty map without pointers, with exactly one entry and as a success, wherever memory holds nothing in the places of the keys |
| Limits.OctetArrayAtWideReader | csp_base/include/common_serialization/csp_base/processing/data/BodyProcessor.h:168-185 | one-octet integers read as wider ones under size tags and endianness difference: all that was written is consumed only for one element, and then the value is right |
| Limits.WideArrayAtOctetReader | csp_base/include/common_serialization/csp_base/processing/data/BodyProcessor.h:316-346 | the reverse: a successful read ends where the writer did if and only if there is one element, and that one arrives as itself or as the value overflow |
| Bytes.PrimitiveBytesHostIndependent | csp_base/include/common_serialization/csp_base/processing/rw.h:33-45 | the octets of a primitive depend on the message's byte order only |
| Bytes.PrimitiveDigit | csp_base/include/common_serialization/csp_base/processing/rw.h:33-45 | each octet on the wire is a digit of the number to the base 256, from the least significant one up, or from the most significant one down in a big-endian message |
| Bytes.PrimitiveRoundTrip | csp_base/include/common_serialization/csp_base/processing/rw.h:58-74 | any host reads the number any host wrote |
| Bytes.ReverseEndiannessIsInvolution | common/include/common_serialization/common/helpers.h:91-159 | byte reversal is an involution and equals reversing the sequence of octets |
| Words.Reverse16Octets | common/include/common_serialization/common/helpers.h:117-120 | the 16-bit shift expression reverses the octets and undoes itself |
| Words.Reverse32Octets | common/include/common_serialization/common/helpers.h:106-112 | the 32-bit shift-and-mask expression reverses the octets and undoes itself |
| Words.Reverse64Octets | common/include/common_serialization/common/helpers.h:91-101 | the 64-bit shift-and-mask expression reverses the octets and undoes itself |
| Words.WordsReverse | common/include/common_serialization/common/helpers.h:122-159 | on all three widths the word functions compute the reversal used by the primitive codec |
| Serializer.SData.SerializeValue | csp_base/include/common_serialization/csp_base/processing/data/BodyProcessor.h:210-256 | the running code leaves stream and pointers map exactly as the writing function says, or reports its error |
| Serializer.SData.SerializeArray | csp_base/include/common_serialization/csp_base/processing/data/BodyProcessor.h:155-199 | the same for counted arrays |
| Serializer.SData.SerializeElems | csp_base/include/common_serialization/csp_base/processing/data/BodyProcessor.h:189-195 | the element loop is the recursive specification, for any starting map |
| Serializer.SData.SerializeStruct | csp_base/include/common_serialization/csp_base/processing/data/BodyProcessor.h:493-523 | the gate in front of single structs, with all four of its outcomes; which flags and versions lead to which is stated by `Wire.StructTravels` |
| Serializer.SData.SerializeUnchecked | csp_base/include/common_serialization/csp_base/processing/data/BodyProcessor.h:225-246 | the running code writes the unfolding of the value, octet by octet, or reports its error, and leaves the pointers map alone |
| Serializer.SData.AddPointerToMap | csp_base/include/common_serialization/csp_base/processing/data/BodyProcessor.h:559-583 | null, back reference or new record: the marker written and the new map in each case |
| Serializer.SData.WritePrimitive | csp_base/include/common_serialization/csp_base/processing/rw.h:33-45 | what is appended is the number in the message's byte order |
| Deserializer.DData.DeserializeValue | csp_base/include/common_serialization/csp_base/processing/data/BodyProcessor.h:375-435 | the running code yields the value and the state the reading function says, or its error |
| Deserializer.DData.DeserializeArray | csp_base/include/common_serialization/csp_base/processing/data/BodyProcessor.h:303-362 | the same for counted arrays, with the size tag and its conversion loop |
| Deserializer.DData.DeserializeElems | csp_base/include/common_serialization/csp_base/processing/data/BodyProcessor.h:350-358 | the element loop is the recursive specification |
| Deserializer.DData.DeserializePointer | csp_base/include/common_serialization/csp_base/processing/data/BodyProcessor.h:394-426 | a new pointee is made, registered where pointers are checked, and then read; without the check every pointer that is not null makes an object, which octets say so being stated by `Unfolding.UncheckedPointerReads` |
| Deserializer.DData.GetPointerFromMap | csp_base/include/common_serialization/csp_base/processing/data/BodyProcessor.h:586-611 | null, new, back reference or range error, and what happens to the map, as `AnyBody.ReferenceIsRead` states on the octets |
| Deserializer.DData.DeserializeFromAnotherSize | csp_base/include/common_serialization/csp_base/processing/data/BodyProcessor.h:443-490 | width conversion with its errors for unknown widths, missing octets and values out of range |
| Deserializer.DData.DeserializeEntries | csp_std_structs_processing/include/common_serialization/csp_std_structs_processing/csp_processing_data/TemplateProcessorStd.h:127-145 | the map loop inserts entry by entry as the specification does |
| Deserializer.DData.DeserializeString | csp_std_structs_processing/include/common_serialization/csp_std_structs_processing/csp_processing_data/TemplateProcessorStd.h:48-62 | a string arrives without the terminator it travels with |
| Deserializer.DData.DeserializeVector | csp_base/include/common_serialization/csp_base/processing/data/TemplateProcessor.h:43-55 | a vector is its size and then that many elements |
| Message.MessageRoundTrip | csp_base/include/common_serialization/csp_base/processing/data/ContextProcessor.h:77-171 | a message is accepted if and only if byte orders, id, interface version and data flags meet the reader's demands and a container for added pointers is there if pointers are allowed; the body then ends where the message ends exactly when the reader's types can hold it, and rebuilds the graph sent as `GraphRoundTrip` says, under the numbers that the writer's offsets give |
| Message.EnvelopeArrives | csp_base/include/common_serialization/csp_base/processing/common/ContextProcessor.h:53-104 | both headers arrive on any host: the reader recovers the settings, or reports the first demand that is not met, in the order the code tests them; data flags are refused exactly when a forbidden bit is set in their word or a mandatory one is not |
| Message.CompatibleIffWordSuits | csp_base/include/common_serialization/csp_base/processing/data/ContextProcessor.h:66-71 | on the flag words: the test passes if and only if no bit of the message's word is forbidden and every mandatory bit is set in it |
| Message.FlagBits | csp_base/include/common_serialization/csp_base/context/DataFlags.h:40-83 | which bit of its word each flag is |
| Message.EnvelopeOctets | csp_base/include/common_serialization/csp_base/processing/data/ContextProcessor.h:77-105 | the 32 octets of both headers, position by position, or the first refusal, on settings, ids and flag words |
| Message.EnvelopeHostIndependent | csp_base/include/common_serialization/csp_base/processing/common/ContextProcessor.h:63-75 | the octets of the headers do not depend on the host that writes them |
| Message.ReservedBitsAreDropped | csp_base/include/common_serialization/csp_base/context/CommonFlags.h:86-91 | decoding a flag word is decoding its valid bits; reserved bits change nothing and reject nothing |
| Message.FlagsRoundTrip | csp_base/include/common_serialization/csp_base/context/Common.h:129-156 | flags survive their encoding as bits |
| Message.VersionFieldIsTruncated | csp_base/include/common_serialization/csp_base/processing/common/ContextProcessor.h:84-90 | the version test fails exactly when the lower octet of the field is not the supported version |
| Headers.Outgoing.SerializeEnvelope | csp_base/include/common_serialization/csp_base/processing/data/ContextProcessor.h:77-105 | the header processors append exactly the specified octets, which `Message.EnvelopeOctets` spells out, or report the specified error |
| Headers.Outgoing.SerializeCommon | csp_base/include/common_serialization/csp_base/processing/common/ContextProcessor.h:53-75 | the common header is written little-endian, and nothing is written when a check fails |
| Headers.Incoming.DeserializeCommon | csp_base/include/common_serialization/csp_base/processing/common/ContextProcessor.h:77-104 | the status in every case, and which fields of the context are set, and to what, after the common header: on success, on every error, and when the stream ends early |
| Headers.Incoming.DeserializeData | csp_base/include/common_serialization/csp_base/processing/data/ContextProcessor.h:124-171 | interface version and data flags are set as soon as they have been read; the demands are tested in order, on the word of the data flags, the missing container for added pointers among them |
| Headers.Incoming.DeserializeEnvelope | csp_base/include/common_serialization/csp_base/processing/data/ContextProcessor.h:124-171 | the context a data message leaves behind is the one the specification reads |
| RegistrarSafety.StepKeeps | csp_messaging/include/common_serialization/csp_messaging/GenericServerDataHandlerRegistrar.h:102-291 | every step of every caller keeps the invariant: counters count their users, pending service counters their debtors, and a latch is up exactly while users or one signaller remain |
| RegistrarSafety.RunsKeep | csp_messaging/include/common_serialization/csp_messaging/GenericServerDataHandlerRegistrar.h:102-291 | so does every interleaving of any length |
| RegistrarSafety.SumIsDebtors | csp_messaging/include/common_serialization/csp_messaging/GenericServerDataHandlerRegistrar.h:167-174 | the sum unregisterService computes under the lock is the number of callers it has to wait for |
| RegistrarRuns.ErasedIsUnused | csp_messaging/include/common_serialization/csp_messaging/GenericServerDataHandlerRegistrar.h:141-190 | no entry is ever erased while a caller holds it between acquire and the end of its work under the lock, by whichever removal |
| RegistrarRuns.SearchWakesNobody | csp_messaging/include/common_serialization/csp_messaging/GenericServerDataHandlerRegistrar.h:274-287 | the search of the handler list that follows a service's latch without the lock counts no second latch down |
| RegistrarRuns.SearchLosesEntryIff | csp_messaging/include/common_serialization/csp_messaging/GenericServerDataHandlerRegistrar.h:274-287 | the entry that this search looks at goes under it exactly when the unregisterService it has woken comes back, and nothing keeps that from happening as soon as nobody holds the lock |
| RegistrarRuns.ErasedIsRead | csp_messaging/include/common_serialization/csp_messaging/GenericServerDataHandlerRegistrar.h:274-287 | a run, step by step, after which the search reads the handler of an erased entry: the removals of two services overlap, one of a handler and one of the service just released |
| RegistrarRuns.ServiceCounterIsSum | csp_messaging/include/common_serialization/csp_messaging/GenericServerDataHandlerRegistrar.h:163-181 | a pending service counter is the in-use sum of its entries plus the releasers between the two decrements |
| RegistrarRuns.LatchCountedDownOnce | csp_messaging/include/common_serialization/csp_messaging/GenericServerDataHandlerRegistrar.h:258-291 | whoever counts a latch down finds it up, leaves it down, and nobody else is on the way to it |
| RegistrarRuns.NoLostWakeUp | csp_messaging/include/common_serialization/csp_messaging/GenericServerDataHandlerRegistrar.h:250-290 | while a latch is up some caller it depends on exists and can take its next step |
| RegistrarRuns.CallersCanDrain | csp_messaging/include/common_serialization/csp_messaging/GenericServerDataHandlerRegistrar.h:250-290 | from every reachable state every call under way can come to its end without a new call: each aquireHandlers, failed or not, each release, and each unregister call that waits |
| RegistrarRuns.RunsAreBounded | csp_messaging/include/common_serialization/csp_messaging/GenericServerDataHandlerRegistrar.h:193-290 | whatever the interleaving, a run in which nothing new begins has at most as many steps as the calls under way have left: every step of every caller shrinks their sum |
| RegistrarRuns.StuckIsDone | csp_messaging/include/common_serialization/csp_messaging/GenericServerDataHandlerRegistrar.h:250-290 | where such a run can go no further nobody is left holding, releasing, collecting or waiting |
| RegistrarRuns.AcquirersCanFinish | csp_messaging/include/common_serialization/csp_messaging/GenericServerDataHandlerRegistrar.h:193-225 | an aquireHandlers under way can always end, giving its counters back one by one if a pushBack has failed, without touching a wait |
| RegistrarRuns.InUseNeverGrows | csp_messaging/include/common_serialization/csp_messaging/GenericServerDataHandlerRegistrar.h:193-248 | once an entry leaves the active state its counter never grows |
| RegistrarRuns.RollbackConsumesNoSignal | csp_messaging/include/common_serialization/csp_messaging/GenericServerDataHandlerRegistrar.h:211-221 | the rollback of an aquireHandlers gives back active entries only, and no removal's last release is consumed by it |
| RegistrarRuns.RetiredHandlerStays | csp_messaging/include/common_serialization/csp_messaging/GenericServerDataHandlerRegistrar.h:117-157 | once unregistered, a handler of a message has no active entry in any state of any later run in which it is not registered again |
| RegistrarRuns.RetiredServiceStays | csp_messaging/include/common_serialization/csp_messaging/GenericServerDataHandlerRegistrar.h:159-191 | nor has a service |
| RegistrarRuns.RetiredHandlerIsNotAcquired | csp_messaging/include/common_serialization/csp_messaging/GenericServerDataHandlerRegistrar.h:193-248 | after any such run neither aquireHandler nor aquireHandlers takes an entry of the handler for that message |
| RegistrarRuns.RetiredServiceIsNotAcquired | csp_messaging/include/common_serialization/csp_messaging/GenericServerDataHandlerRegistrar.h:193-248 | nor, for a service, any of its entries |
| RegistrarCode.HandlerRegistrar.RegisterHandler | csp_messaging/include/common_serialization/csp_messaging/GenericServerDataHandlerRegistrar.h:102-115 | refused exactly when the message is not multicast and has a handler already; else one new active entry |
| RegistrarCode.HandlerRegistrar.UnregisterHandler | csp_messaging/include/common_serialization/csp_messaging/GenericServerDataHandlerRegistrar.h:117-139 | finds the entry of the handler; not in use it is erased at once, and no entry of handler and message is left; in use it is marked, one wait of one count for it appears, and nothing else changes |
| RegistrarCode.HandlerRegistrar.UnregisterHandlerAwake | csp_messaging/include/common_serialization/csp_messaging/GenericServerDataHandlerRegistrar.h:141-157 | the second search erases the very entry that was waited for, and with it the wait; no entry of handler and message is left |
| RegistrarCode.HandlerRegistrar.UnregisterService | csp_messaging/include/common_serialization/csp_messaging/GenericServerDataHandlerRegistrar.h:163-185 | erases all entries of the service and no others if none is in use; else all of them are marked, nothing is erased and the wait is there; none of them is active either way |
| RegistrarCode.HandlerRegistrar.UnregisterServiceAwake | csp_messaging/include/common_serialization/csp_messaging/GenericServerDataHandlerRegistrar.h:183-191 | the erasing loop removes all entries of the service and no others, and the wait |
| RegistrarCode.HandlerRegistrar.AquireHandler | csp_messaging/include/common_serialization/csp_messaging/GenericServerDataHandlerRegistrar.h:227-248 | when it succeeds and with which error it fails, and nothing changes on failure |
| RegistrarCode.HandlerRegistrar.AquireHandlers | csp_messaging/include/common_serialization/csp_messaging/GenericServerDataHandlerRegistrar.h:193-225 | given how many pushBacks succeed, the status in every case: no entry, none active, no memory, or success; success lists every active handler of the message once with its counter raised; every failure, part-way ones included, leaves the registrar as it was |
| RegistrarCode.HandlerRegistrar.ReleaseHandler | csp_messaging/include/common_serialization/csp_messaging/GenericServerDataHandlerRegistrar.h:250-291 | a release is a run of the transition system, the search that a service's case falls through to included; which counter falls and which latch is counted down |
| Server.Server.HandleData | csp_messaging/include/common_serialization/csp_messaging/Server.h:180-221 | the outcome, decided by the entries of the message before the call and the number of pushBacks that succeed: none registered, none active, or no memory call nobody and are reported as such; else exactly the active handlers are called, each once, and the first error among their answers is returned; every handler acquired is released, each that does not refuse reads the whole body from its beginning, and one that refuses reads nothing |
| Server.Server.HandleDataCommon | csp_messaging/include/common_serialization/csp_messaging/IServerDataHandler.h:106-182 | a handler refuses with the first demand that is not met and leaves the message as it is; otherwise it answers by its own code or with the reader's error |
| Server.RefusalMeans | csp_messaging/include/common_serialization/csp_messaging/IServerDataHandler.h:106-182 | a policy that answers comes first and its answer is returned as it is; then the version, the bits of the data flags, and flags that check pointers without allowing them |
| Server.Server.HandleAll | csp_messaging/include/common_serialization/csp_messaging/Server.h:209-217 | the loop over the handlers of a multicast message leaves the registrar as it was before they were acquired |
| Server.FirstErrorIsFirst | csp_messaging/include/common_serialization/csp_messaging/Server.h:209-217 | the status of a multicast message is the first answer that is an error, if there is one |
| Server.MulticastDelivers | csp_messaging/include/common_serialization/csp_messaging/Server.h:191-217 | every handler that does not refuse is called with a graph isomorphic to the one sent, whatever earlier passes have left in the pointers map, exactly when the body does not mislead; each answers what is due from it, refusals and the overflow of an input that does not fit among these, and the message succeeds if and only if nothing but successes is due |
| Slots.OverlapIsIntersection | common/include/common_serialization/common/helpers.h:71-75 | the overlap test holds exactly when some slot belongs to both regions |
| Slots.CopyToDirty | allocation_managers/include/common_serialization/allocation_managers/GenericAllocationManager.h:154-193 | for every overlap and boundary and for any place at which a constructor fails: it succeeds if and only if none does, and the destination then is what the source was; otherwise exactly the slots built, and that one's, are raw |
| Slots.MoveToDirty | allocation_managers/include/common_serialization/allocation_managers/GenericAllocationManager.h:245-284 | the same for moves, with sources that have lost their values still constructed |
| Slots.CopyToDirtyNoOverlap | allocation_managers/include/common_serialization/allocation_managers/GenericAllocationManager.h:195-220 | the upward loop never constructs over an object nor destroys raw memory |
| Slots.MoveToDirtyNoOverlap | allocation_managers/include/common_serialization/allocation_managers/GenericAllocationManager.h:286-311 | the upward loop for moves |
| Slots.ConstructN | allocation_managers/include/common_serialization/allocation_managers/GenericAllocationManager.h:102-127 | all elements if no constructor fails, or else none and the error |
| Slots.CopyLeaksNothing | allocation_managers/include/common_serialization/allocation_managers/GenericAllocationManager.h:154-220 | after a copy exactly the old objects and the destination are constructed |
| Slots.MoveLeaksNothing | allocation_managers/include/common_serialization/allocation_managers/GenericAllocationManager.h:245-311 | after a move likewise, and each element moved stands at its destination |
| Vectors.Vector.InsertRange | containers/include/common_serialization/containers/Vector.h:743-797 | for all sizes, capacities and positions and for every sequence of answers of the allocator: the status, the contents, the capacity and the answers consumed; a success yields old prefix, new elements, old suffix; it terminates although a growing step consumes none |
| Vectors.EndsThere | containers/include/common_serialization/containers/Vector.h:743-797 | whatever the allocator answers, an insertion that fails stops where an old element is to be saved, the buffer is full or the rest is to be saved, or drops the tail where the whole does not fit: conditions on the sizes before the call |
| Vectors.StopIsReached | containers/include/common_serialization/containers/Vector.h:743-797 | each of these places is reached, by a refusal after as many exact grants as it takes |
| Vectors.DropIsReached | containers/include/common_serialization/containers/Vector.h:743-797 | and so is the loss of the tail |
| Vectors.FailuresKeepIff | containers/include/common_serialization/containers/Vector.h:743-797 | no failure of the allocator, whatever its answers, changes the contents if and only if the elements that any of these endings would leave are those that stand there: a test on contents, range, position and capacity before the call |
| Vectors.Vector.Insert | containers/include/common_serialization/containers/Vector.h:683-733 | insertion in place or in a new buffer, for every sequence of answers of the allocator; contents and capacity stay on every error |
| Vectors.InsertedStands | containers/include/common_serialization/containers/Vector.h:683-733 | where every old and every new element stands after an insertion |
| Vectors.Vector.Replace | containers/include/common_serialization/containers/Vector.h:637-680 | overwriting, beyond the end if need be, for every sequence of answers of the allocator; contents and capacity stay on every error |
| Vectors.OverwrittenStands | containers/include/common_serialization/containers/Vector.h:637-680 | where every element stands after overwriting, and how many there are |
| Vectors.Vector.PushBackN | containers/include/common_serialization/containers/Vector.h:595-606 | appending: it fails exactly when the allocator refuses both requests; what it does to the capacity and how many elements it moves; contents and capacity stay on every error |
| Vectors.Vector.Reserve | containers/include/common_serialization/containers/Vector.h:569-572 | contents stay; if the capacity was less, one strict request is made, and it becomes exactly what was asked for if that is granted, and stays if not |
| Vectors.Vector.ReserveInternal | containers/include/common_serialization/containers/Vector.h:1048-1073 | growth by doubling with exact fallback, as the answers have it, and nothing on failure |
| Vectors.Memory.Allocate | allocation_managers/include/common_serialization/allocation_managers/StrategicAllocationManager.h:67-87 | memory of twice the size asked for, or of that size, or none, as the next one or two answers have it |
| Vectors.RoomMeans | allocation_managers/include/common_serialization/allocation_managers/StrategicAllocationManager.h:67-87 | which answers decide: nothing is asked where there is room, else twice the room and then just the room; it takes two refusals to fail, and the capacity stays then |
| Vectors.GrowthIsAmortized | allocation_managers/include/common_serialization/allocation_managers/StrategicAllocationManager.h:67-87 | along the growth of a vector whose doubled requests are granted the elements moved stay below the capacity, and that below twice the size |
| Vectors.PushRun | containers/include/common_serialization/containers/Vector.h:574-606 | any run of pushes on a new vector appends them all, each step growing as the allocator granted; if the next answers, one for each push, are grants, no push fails and all moves together stay below the capacity and that below twice the size |
| Vectors.DoublesIsPushed | allocation_managers/include/common_serialization/allocation_managers/StrategicAllocationManager.h:67-87 | a push grows as the recurrence says exactly when its doubled request is granted or none is needed |
| Versions.ThroughOldVersionAndBack | csp_base/include/common_serialization/csp_base/processing/data/VersionConverter.h:67-103 | writing stops at the greatest version not above the target, reading starts there, and what comes back is the fold of the upgrades after the fold of the downgrades |
| Versions.ConvertDownFolds | csp_base/include/common_serialization/csp_base/processing/data/VersionConverter.h:132-179 | downgrading applies each downgrade once and stops at exactly the target |
| Versions.ConvertUpFolds | csp_base/include/common_serialization/csp_base/processing/data/VersionConverter.h:268-307 | upgrading is the fold of the later upgrades exactly when the latest version can be initialized from all versions on the way |
| Versions.ConvertUpSucceedsIff | csp_base/include/common_serialization/csp_base/processing/data/VersionConverter.h:276-305 | an upgrade whose steps all work succeeds if that condition holds, and reports the missing handler if not |
| Versions.NoneForStrangers | csp_base/include/common_serialization/csp_base/processing/data/VersionConverter.h:67-103 | nothing is sent to a party that knows no version of the struct, nor expected of it; whenever it knows one, a version is expected |
| Versions.StartIndexIsTarget | csp_base/include/common_serialization/csp_base/processing/data/VersionConverter.h:229-237 | skipping older versions ends at exactly the version on the wire |
| Versions.LosslessChain | csp_base/include/common_serialization/csp_base/processing/data/VersionConverter.h:132-307 | if each upgrade undoes its downgrade, a detour through an old version loses nothing |
| OldVersions.OldVersionRoundTrip | csp_base/include/common_serialization/csp_base/processing/data/VersionConverter.h:67-103 | a value sent in an old version over bytes, between any two peers: the version written is the one expected, the downgraded value arrives when it fits, and if each upgrade undoes its downgrade the original comes back exactly when the latest version can be initialized from all versions on the way |
| Versions.GetBestCompatInterfaceVersion | csp_base/include/common_serialization/csp_base/processing/data/VersionConverter.h:310-320 | the search returns the greatest version not above the other party's, or undefined if there is none |
| Versions.BestIsGreatest | csp_base/include/common_serialization/csp_base/processing/data/VersionConverter.h:310-320 | in a descending list the first match is the greatest |
| Negotiation.Client.Init | csp_messaging/include/common_serialization/csp_messaging/Client.h:183-227 | the status in every case, given how many elements there is memory for; it succeeds if and only if the client's settings are valid, the server answers both questions, the lists fit, and under the greatest common protocol version its settings have a version and an interface in common and flags that clash with none; the client is then valid and holds the agreement |
| Negotiation.Client.ChooseVersion | csp_messaging/include/common_serialization/csp_messaging/Client.h:196-213 | the nested loops find the greatest common version, or undefined if there is none |
| Negotiation.CspPartySettings.GetCompatibleSettings | csp_messaging/include/common_serialization/csp_messaging/service_structs/structs.h:222-253 | the status in every case: the flags that clash, no common version, no common interface, no memory, or success with valid settings |
| Negotiation.VerdictOfAgreement | csp_messaging/include/common_serialization/csp_messaging/service_structs/structs.h:222-253 | which of the errors it is, memory included, told from the agreement itself: an empty version list, a mandatory flag that is forbidden, an empty interface table, in the order tested |
| Negotiation.AgreementMeans | csp_messaging/include/common_serialization/csp_messaging/service_structs/structs.h:222-253 | the agreement accepts flags if and only if both parties do, has the common versions, and for each common interface the older version |
| Negotiation.CompatibleIffAgreementValid | csp_messaging/include/common_serialization/csp_messaging/service_structs/structs.h:214-253 | an agreement is valid exactly when there are a common version and a common interface and the flag demands do not clash |
| Negotiation.InterfacesArePointwiseMinimum | csp_messaging/include/common_serialization/csp_messaging/service_structs/structs.h:241-247 | the interface table is the pointwise minimum over the ids both tables have |
| Negotiation.FlagsClashIffNoneSuitsBoth | csp_messaging/include/common_serialization/csp_messaging/service_structs/structs.h:235-239 | the clash test fails exactly when no flags at all suit both parties |

## Left out

- GraphRoundTrip: a first field or first element stands at the address of the object around it; classes whose objects begin with something else, such as a pointer to virtual functions, are not modelled.
- GraphRoundTrip: a struct that would be skipped on one host only, having one octet on the other, is not one type on two hosts (`Twin`).
- GraphRoundTrip: arrays of integers that take one octet on one host only, under size tags and an endianness difference, are kept apart (`ElemTwins`); `OctetArrayAtWideReader` and `WideArrayAtOctetReader` say what becomes of them.
- GraphRoundTrip: pointees that are array elements themselves, and pointees registered under two types, are not modelled; an address has one pointee type.
- GraphRoundTrip: places inside the written value have no address, so a pointer to the root or to a struct embedded in it, as in unit_tests_helper_libs/serializable_structs_libs/tests_csp_interface/include/common_serialization/tests_csp_interface/structs.h:833-855, stands for an object of its own; what it points to comes back as a new object and not as the reader's own field.
- SerializeStruct: a raw copy of a single struct returns NoFurtherProcessingRequired (BodyProcessor.h:519), which its callers take as a success; it is NoError here.
- DeserializeStruct: the same for the reader.
- Write: pointers without the check of recursive pointers (BodyProcessor.h:238-244) are written by `WriteTree` and `SerializeUnchecked`, for values without cycles; on the others the code does not come to an end.
- SerializeValue: as for `Write`.
- MessageRoundTrip: the bodies are those of `Write`; for pointers without the check of recursive pointers `UnfoldingRoundTrip` speaks of the body alone.
- DeserializeVector: does not report the ErrorNoMemory of reserving the size read (TemplateProcessor.h:49), because memory in the body codec never runs out.
- OldVersionRoundTrip: for structs without pointers; upgrading a struct whose addresses have been renamed is not modelled.
- AquireHandler: a caller is a number; threads, memory order and the fairness of the lock are not modelled, nor the wrap-around of 32-bit counters.
- NoLostWakeUp: calls for one service do not overlap and a handler is registered at most once at a time.
- SearchWakesNobody: the search without the lock (GenericServerDataHandlerRegistrar.h:274-287) is one step, and of an erased entry it is taken to match nobody; that others change the list under it is not modelled.
- CopyToDirty: only the branch with constructors; memcpy and memmove appear in `Vectors`.
- Insert: sources that lie in the vector itself, sizes that wrap around, and element types with constructors.
- Vector::erase, copies out of vectors and iterators.
- Hosts with a 32-bit size type; long double; values of floating point beyond their bit patterns.
- Allocation failures in the body codec, and sizes that a container refuses to reserve.
- Version conversion of structs nested in a body: the chains are modelled on values, the body codec on one version.
- The order in which std::map iterates: a map is its sequence of entries with distinct keys, and keys hold no pointers.
- Padding of raw structs, written as zeros; the reader does not look at it.
- HandleDataCommon: what a policy or a handler's code decides is given, and the answer that is serialized for the client, or for a refused version, is left out.
- Status and GetSettings messages, and transport.
