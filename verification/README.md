# Phantasma SDK: codecs, script builder, fees and events

A Dafny model of the parts of the Phantasma Python SDK that turn values into bytes and back, and of the
calculators beside them. Each codec is a pair of functions on byte strings; the writer and reader objects, the
script builder and the loops of the original are classes and methods proved against those functions; the laws
are lemmas over every value and every input.

| area | modules |
|---|---|
| bytes, text, machine integers | Bytes, Bits, Utf8, Int256, Prim, PrimBytes |
| writer and reader objects | Streams, CarbonIO, BinaryIO |
| Carbon schemas and dynamic values | VmData, FieldOrder, SchemaCodec, VmWire, VmBytes, VmDefaults, VmRoundTrip, VmGet, VmLaws, VmRows, VmExtend, VmCanonical, VmSame, VmSettled, VmAgain, VmReorder, VmWriter, VmReader |
| transactions | TxLayout, TxMessage, TxBytes, TxIO |
| fee estimator | Fees, FeeTerms |
| NFT metadata | NftRom, NftRomBack, NftAccepts |
| VM objects | VmInteger, VmBinary, VmObject, ObjectBytes, VmObjectIO, VmCast, CastMeaning |
| scripts | ArgLoader, ArgDenotes, ScriptModel, ScriptText, ScriptBuilder |
| Base58 | Base58 |
| extended events | Json, WireShapes, WireKept, FieldNames, Shapes, Arguments, ShapeFields, Events, EventsKept |

How the model reads the code:

- A writer function returns the bytes appended, or None where the original raises; a reader function returns the
  value and the bytes left, or Err. All exceptions are one outcome. Where a raised call leaves something behind
  that later calls can see, as in the script builder, the model says what.
- Decoders are total functions: that Dafny accepts their measures (bytes left, then schema left) is the proof
  that decoding ends on every input.
- Text is a sequence of Unicode scalar values; Python's order on text is by code point.
- A value's type tag is its constructor, so a payload whose Python type does not fit its tag does not arise,
  except where a schema meets a value of another type, which is modelled.
- `write_static` and `write_with_schema` always report success when they return, so their flag is dropped.
- `str.lower`, `str`, `int`, base64, blank-text and hex parsing are parameters; ArgLoader's machine has the four
  opcodes the loader emits (LOAD, CAST to None, PUT, PUSH) and nothing else of the VM.
- `hide` in a proof or method keeps a definition out of one proof; nothing is assumed anywhere.

Where the code does less than it seems to promise, the exact condition is proved:

- IntX writes integers beyond [-2^255, 2^255) that it does not give back: it yields their signed residue, or refuses
  its own bytes exactly when that residue lies in [-2^56, 2^56) (`Int256.RoundTripX`, `Int256.RoundTripXWide`). Its
  fast path takes bit 0x40 of the header, which the general reader refuses, exactly where eight length bits and eight
  bytes are there (`Int256.FastPathExact`).
- A STRUCT or ARRAY_STRUCT schema field without its definition comes back with an empty one
  (`SchemaCodec.RoundTrip`).
- The bare-zero shortcut for extras loses fields exactly when it is taken although a field is not in the schema
  (`VmRoundTrip.ShortcutWrong`), which some struct brings about exactly when schema names repeat
  (`VmRoundTrip.ShortcutExactly`).
- Rows that take no bytes need as many bytes behind their count as there are rows: the bytes that follow the array
  under a given schema (`VmRows.EmptyRowsNeedRoom`), those and the schema's where the array carries it
  (`VmRows.EmptyOwnRowsNeedRoom`).
- A second bare signature is attributed to the payload's from address whoever signed (`TxMessage.TxBack`).
- An OBJECT that has not 34 bytes comes back as BYTES holding its length prefix (`VmObject.WriteRead`).
- Empty text does not survive a cast to a struct (`VmCast.ThroughStruct`), and timestamps from 2^31 on change
  when cast through bytes (`VmCast.WordThroughBytes`).
- Metadata given for a DYNAMIC field is accepted and leaves no trace in the ROM (`NftRomBack.DynamicLeavesNoTrace`).

## Model

| member | source | states |
|---|---|---|
| Int256.RoundTrip | src/phantasma_py/carbon.py:141-155 | Every integer the compact writer takes, in front of any bytes, reads back as its signed 256-bit residue and leaves those bytes |
| Int256.WrapUnique | src/phantasma_py/carbon.py:3400-3413 | That residue is the unique integer of [-2^255, 2^255) congruent to the value modulo 2^256 |
| Int256.AcceptedShape | src/phantasma_py/carbon.py:261-277 | Exactly which bytes the compact reader accepts: the trimmed word of its value, with extra fill bytes at most, under the header of that length and sign |
| Int256.Shortest | src/phantasma_py/carbon.py:261-277 | The writer emits the unique shortest encoding of a value that the reader accepts |
| Int256.FastPathAgrees | src/phantasma_py/carbon.py:340-355 | The IntX eight-byte fast path and the general reader agree in value and bytes consumed when bit 0x40 is clear; with it set the general reader always refuses |
| Int256.FastPathExact | src/phantasma_py/carbon.py:340-355 | Among headers that announce at least eight bytes the two readers differ exactly when there are eight length bits, bit 0x40 is set and eight bytes are there to read |
| Int256.FastPathTakesOversizeBit | src/phantasma_py/carbon.py:340-355 | For instance on the header 0x48 |
| Int256.RoundTripX | src/phantasma_py/carbon.py:329-355 | IntX gives back a written value exactly on [-2^255, 2^255) |
| Int256.RoundTripXWide | src/phantasma_py/carbon.py:329-355 | Of any other written value beyond int64 it gives the signed residue, except that it refuses what it wrote exactly when the residue lies in [-2^56, 2^56) |
| Int256.TrimmedRange | src/phantasma_py/carbon.py:141-155 | The compact form needs at most k bytes exactly for residues in [-256^k, 256^k) |
| Int256.ShortIsInt64 | src/phantasma_py/carbon.py:329-338 | A value whose compact form has fewer than eight bytes fits an int64, so within [-2^255, 2^255) IntX never emits a header its reader would refuse as short |
| Utf8.DecodeExact | src/phantasma_py/carbon.py:89-97 | UTF-8 decoding succeeds exactly on the encoding of the text it yields (section 3 of RFC 3629) |
| Utf8.ZeroByte | src/phantasma_py/carbon.py:162-166 | A zero byte occurs in the encoding exactly when the text holds code point 0, which zero-terminated strings rely on |
| Prim.RoundTrip | src/phantasma_py/carbon.py:103-320 | Every primitive of every kind reads back, up to the residue the two wrapping kinds are written modulo, and leaves what follows |
| Prim.ArrayBack | src/phantasma_py/carbon.py:157-195 | Counted arrays of any kind read back element by element; the length guard never refuses them |
| Prim.ArrayExtends | src/phantasma_py/carbon.py:216-229 | A counted array that is read from some bytes is read identically from those bytes followed by more |
| Prim.Extends | src/phantasma_py/carbon.py:216-229 | The same for every primitive kind, and each takes at least one byte |
| PrimBytes.IntegerBytes | src/phantasma_py/carbon.py:103-135 | Each fixed-width integer is written in its literal number of bytes, and refused exactly outside its literal range; the VM byte alone is cut to eight bits |
| PrimBytes.LEAt | src/phantasma_py/carbon.py:103-135 | The i-th byte of a little-endian integer is the integer divided by 256^i, modulo 256 |
| PrimBytes.TextBytes | src/phantasma_py/carbon.py:85-170 | Fixed bytes, blobs, short and zero-terminated text byte for byte, with the literal sizes they are refused beyond |
| PrimBytes.WideBytes | src/phantasma_py/carbon.py:329-338 | INT256 takes exactly the integers of up to 256 bits; IntX writes 64-bit ones as 08 or 88 and eight bytes |
| PrimBytes.ArrayBytes | src/phantasma_py/carbon.py:157-195 | An array is its four-byte count and its elements in turn |
| CarbonIO.CarbonWriter.WriteBigInt | src/phantasma_py/carbon.py:141-155 | The trimming loop appends exactly the compact encoding, or raises |
| CarbonIO.CarbonWriter.WriteEach | src/phantasma_py/carbon.py:157-195 | The array loops append exactly the encodings of the elements, or raise at the first that has none |
| CarbonIO.Refill | src/phantasma_py/carbon.py:261-277 | The refill loop rebuilds the 32-byte word from the bytes read and the sign fill |
| CarbonIO.CarbonReader.Read | src/phantasma_py/carbon.py:216-221 | A read hands out the next bytes and advances past them, or raises and leaves the offset alone |
| CarbonIO.CarbonReader.ReadBigIntWithHeader | src/phantasma_py/carbon.py:261-277 | The imperative reader yields what the codec function yields and stands where it stands |
| CarbonIO.CarbonReader.ReadStringZ | src/phantasma_py/carbon.py:282-292 | The scan stops at the first zero byte and yields the text in front of it |
| CarbonIO.CarbonReader.ReadIntX | src/phantasma_py/carbon.py:340-355 | IntX is read, fast path included, as the codec function reads it |
| CarbonIO.CarbonReader.ReadEach | src/phantasma_py/carbon.py:279-320 | The array loops read as many elements as counted, or raise |
| VmData.TagsExact | src/phantasma_py/carbon.py:468-493 | The 24 type tags are 0 to 23 and correspond one to one to the types |
| SchemaCodec.RoundTrip | src/phantasma_py/carbon.py:533-581 | A struct schema, nested to any depth, comes back unchanged exactly when struct definitions stand where the wire carries them; an absent one comes back empty |
| SchemaCodec.SchemaExtends | src/phantasma_py/carbon.py:543-581 | A schema read from some bytes is read identically when more follow |
| VmBytes.SFieldBytes | src/phantasma_py/carbon.py:537-562 | A schema field is its name, its type number, and for STRUCT and ARRAY_STRUCT alone a definition, five zero bytes if it has none |
| VmBytes.SchemaBytes | src/phantasma_py/carbon.py:572-576 | A schema is its fields behind their count, then its flags |
| VmBytes.VarBytes | src/phantasma_py/carbon.py:589-681 | A self-describing value is its literal type number and its payload; a struct array is its count, its own schema unless one is given, and its rows under whichever of the two names a field |
| VmBytes.NamedBytes | src/phantasma_py/carbon.py:749-767 | Named values stand behind their count, each a short text and a value |
| VmBytes.StructBytes | src/phantasma_py/carbon.py:781-814 | A struct is its named values sorted, or the schema's fields and, only if the lowest flag is set, the other named values behind them |
| FieldOrder.LeExactly | src/phantasma_py/carbon.py:772-773 | Names are ordered by prefix and first difference |
| FieldOrder.SortStable | src/phantasma_py/carbon.py:772-773 | Sorting fields keeps the relative order of fields of one name |
| FieldOrder.SortSorted | src/phantasma_py/carbon.py:772-773 | Sorted fields stand in the order of their names |
| FieldOrder.SortMembers | src/phantasma_py/carbon.py:772-773 | Sorting fields neither adds nor loses one |
| FieldOrder.DistinctPermutation | src/phantasma_py/carbon.py:772-773 | Any two arrangements of distinctly named fields sort to the same list |
| VmRoundTrip.VarBack | src/phantasma_py/carbon.py:584-598 | Self-describing values of all 24 types read back as their normal form, which VmSame characterises, and leave what follows |
| VmRoundTrip.StaticBack | src/phantasma_py/carbon.py:600-747 | The same for a value written under an expected type and an optional schema |
| VmRoundTrip.StructBack | src/phantasma_py/carbon.py:791-829 | A struct written under a schema reads back as its projection on the schema and its extras, and leaves what follows |
| VmDefaults.MissingBytes | src/phantasma_py/carbon.py:3365-3384 | What is written for an absent value of each type: so many zero bytes, a zero count, an ARRAY_DYNAMIC of none for DYNAMIC, the blanks of its definition for STRUCT |
| VmDefaults.FieldBytes | src/phantasma_py/carbon.py:791-804 | Under a schema every field stands in order: the struct's first value of that name if it has the type, otherwise the blank |
| VmDefaults.BlankBack | src/phantasma_py/carbon.py:683-747 | A blank is read back as literal 0, empty, all zeros, or a struct of blanks |
| VmDefaults.AbsentReadsBlank | src/phantasma_py/carbon.py:816-829 | So the struct read back holds the blank wherever the one written had no value of the name and type |
| VmRoundTrip.RowArrayBack | src/phantasma_py/carbon.py:632-651 | Struct arrays read back under a given schema or the one they carry |
| VmRoundTrip.ShortcutIsExact | src/phantasma_py/carbon.py:805-814 | With distinct schema names the bare zero is written only when there are no extras, so it equals the general path byte for byte |
| VmRoundTrip.ShortcutWrong | src/phantasma_py/carbon.py:805-814 | For any struct and schema, the written extras are the extras exactly when the shortcut is not taken or every field name is in the schema |
| VmRoundTrip.ShortcutExactly | src/phantasma_py/carbon.py:805-814 | The shortcut is right for every struct exactly under the schemas with distinct names: a repeated name always has a struct that loses a field |
| VmSame.VarReads | src/phantasma_py/carbon.py:584-598 | What a written value reads back as is exactly the one value that is sorted at every level and the same up to field order, integer residues and, in struct arrays, the projection on the schema they carry |
| VmSame.StructReads | src/phantasma_py/carbon.py:791-829 | The same for a struct under a schema, name by name: each schema field once with the struct's value of its type or the default, the extras in their order |
| VmSame.NormSame | src/phantasma_py/carbon.py:683-747 | The normal form of any value is sorted at every level and the same value |
| VmLaws.ReorderSelfDescribing | src/phantasma_py/carbon.py:772-783 | Reordering distinctly named fields never changes the bytes write_carbon produces |
| VmLaws.ReorderUnderSchema | src/phantasma_py/carbon.py:791-814 | Nor the bytes under a schema that admits no extras |
| VmLaws.ExtrasInOwnOrder | src/phantasma_py/carbon.py:812-814 | Extras, in contrast, follow the schema's fields in the struct's own order |
| VmLaws.ExtrasKeepOrder | src/phantasma_py/carbon.py:812-814 | So a rearranged struct has the same bytes under such a schema exactly if its extras keep their order |
| VmReorder.VarReordered | src/phantasma_py/carbon.py:772-814 | Two values that differ in the order of fields at any depth, as far as their schemas leave it open, have the same bytes |
| VmReorder.DistinctReordered | src/phantasma_py/carbon.py:772-783 | Distinctly named fields may stand in any order at every level, when each finds its like |
| VmLaws.ReorderReadBack | src/phantasma_py/carbon.py:784-829 | What is read back never depends on the order of distinctly named fields, extras included |
| VmLaws.NormSort | src/phantasma_py/carbon.py:784-789 | Normalising values commutes with sorting by name |
| VmLaws.ExtrasSort | src/phantasma_py/carbon.py:812-829 | Filtering the extras commutes with sorting by name |
| VmLaws.ProjectionHolds | src/phantasma_py/carbon.py:791-829 | A struct read back under a schema is sorted and holds exactly the schema's fields, each the struct's own or the type default, and the normalised extras |
| VmRows.EmptyRowsNeedRoom | src/phantasma_py/carbon.py:223-229 | Under a given schema, rows that take no bytes at all are refused by the length guard exactly when fewer bytes follow than there are rows |
| VmRows.EmptyOwnRowsNeedRoom | src/phantasma_py/carbon.py:223-229 | Where such rows carry their own schema, exactly when there are more rows than bytes of schema and of what follows |
| VmExtend.VarExtends | src/phantasma_py/carbon.py:594-598 | A self-describing value read from some bytes is read identically when more follow |
| VmExtend.StructExtends | src/phantasma_py/carbon.py:816-829 | The same for structs, with and without a schema |
| VmExtend.NoStrictPrefix | src/phantasma_py/carbon.py:683-747 | No strict prefix of bytes that decode to a value decodes |
| VmExtend.NoStrictPrefixOfStruct | src/phantasma_py/carbon.py:816-829 | Nor of bytes that decode to a struct |
| VmCanonical.NormTwice | src/phantasma_py/carbon.py:683-747 | What was read back is a fixed point: writing and reading it again changes nothing, at any depth |
| VmCanonical.StructTwice | src/phantasma_py/carbon.py:816-829 | The same for a struct under a schema, defaults and extras included |
| VmAgain.ReadBackExact | src/phantasma_py/carbon.py:584-598 | A value that was read back can be written again, is settled, and then reads back as itself |
| VmSettled.SurvivesExactly | src/phantasma_py/carbon.py:584-598 | A written value survives exactly when it is settled: INT8 and INT256 in signed range, fields sorted at every level, rows conforming to the schema their array carries |
| VmSettled.StructSurvivesExactly | src/phantasma_py/carbon.py:791-829 | The same for a struct under a schema: each schema name there as often as in the schema with a settled value of its type, anything else only as an admitted extra |
| VmWriter.WriteVar | src/phantasma_py/carbon.py:589-592 | write_carbon of a value appends its encoding or raises |
| VmWriter.WriteStatic | src/phantasma_py/carbon.py:600-681 | write_static, over all type tags, appends the encoding or raises |
| VmWriter.WriteStruct | src/phantasma_py/carbon.py:781-814 | write_carbon and write_with_schema append the struct's encoding or raise |
| VmWriter.WriteSchema | src/phantasma_py/carbon.py:572-576 | A schema is appended field by field, recursively |
| VmReader.ReadVar | src/phantasma_py/carbon.py:594-598 | read_carbon yields the decoded value and moves past it, or raises |
| VmReader.ReadStatic | src/phantasma_py/carbon.py:683-747 | read_static over all type tags, terminating on every input by bytes left, then schema left |
| VmReader.ReadStruct | src/phantasma_py/carbon.py:785-829 | Structs are read and sorted, with and without a schema |
| VmReader.ReadSchema | src/phantasma_py/carbon.py:578-581 | A schema is read recursively, or raises |
| TxLayout.CallBack | src/phantasma_py/carbon.py:1553-1570 | Calls with plain arguments or with any mix of sections read back; the sign of the length word alone tells the forms apart |
| TxLayout.SectionBack | src/phantasma_py/carbon.py:1577-1590 | A section comes back as the register reference or the bytes it carried |
| TxLayout.PartsBack | src/phantasma_py/carbon.py:1643-1896 | Records of any layout, counted tables and call lists included, read back and leave what follows |
| TxMessage.MsgBack | src/phantasma_py/carbon.py:1930-1947 | Messages of all seventeen types read back and leave what follows |
| TxBytes.PayloadWrites | src/phantasma_py/carbon.py:1594-1896 | The type byte and every field of each of the seventeen payload classes, in the order and width its class writes them |
| TxBytes.MsgWrites | src/phantasma_py/carbon.py:1930-1938 | A message is its type byte, expiry, gas and data limits, gas payer, payload text and payload |
| TxBytes.SendableExactly | src/phantasma_py/carbon.py:329-355 | The round trips speak of every message but those with an IntX amount outside the signed 256-bit range |
| TxMessage.FromToData | src/phantasma_py/carbon.py:2048-2072 | The payload dispatch rebuilds every payload from its fields |
| TxMessage.TxBack | src/phantasma_py/carbon.py:1969-2035 | Signed transactions of all seventeen types read back although native types leave witness addresses off the wire; the witnesses are unchanged exactly when a second bare signature belongs to the payload's from address |
| TxMessage.TxBytesStable | src/phantasma_py/carbon.py:1969-2035 | Writing what was read gives the original bytes |
| TxMessage.NoStrictPrefix | src/phantasma_py/carbon.py:2008-2035 | No strict prefix of a signed transaction decodes |
| TxBytes.SingleSigned | src/phantasma_py/carbon.py:1971-1983 | The seven plain native types carry exactly the gas payer's bare signature, and are refused with any other witnesses |
| TxBytes.DoubleSigned | src/phantasma_py/carbon.py:1984-1995 | The five gas-payer types carry the two bare signatures, the gas payer's first |
| TxBytes.ArraySigned | src/phantasma_py/carbon.py:1996-2000 | Calls, trades and script transactions carry a count and every address with its signature |
| TxBytes.RawSigned | src/phantasma_py/carbon.py:2001-2004 | A raw transaction carries no witness |
| TxBytes.WitnessesBack | src/phantasma_py/carbon.py:2008-2035 | Witnesses come back as they were, except that the second bare signature is taken to belong to the address in the payload's from field |
| TxBytes.EnvelopeExact | src/phantasma_py/carbon.py:2226-2241 | The envelope formula is the signed length of every message of a type the fee kind prices |
| TxBytes.OperationEnvelope | src/phantasma_py/carbon.py:2226-2241 | So of the messages each fee kind is sent as, by name |
| TxIO.WriteTx | src/phantasma_py/carbon.py:1969-2005 | SignedTxMsg.write_carbon appends the encoding or raises |
| TxIO.ReadTx | src/phantasma_py/carbon.py:2008-2035 | SignedTxMsg.read_carbon yields the decoded transaction and moves past it, or raises |
| TxIO.Deserialize | src/phantasma_py/carbon.py:502-512 | Deserialising takes the whole input or raises |
| TxIO.Serialize | src/phantasma_py/carbon.py:502-505 | Serialising yields exactly the encoding |
| TxIO.WriteCall | src/phantasma_py/carbon.py:1553-1561 | TxMsgCall.write_carbon appends ids, then arguments or sections |
| TxIO.ReadCall | src/phantasma_py/carbon.py:1563-1570 | TxMsgCall.read_carbon |
| Fees.EstimateBounds | src/phantasma_py/carbon.py:2244-2338 | In both gas models the expected bill is at most max_gas, and all three results are unsigned 64-bit |
| Fees.EstimateRefused | src/phantasma_py/carbon.py:2264-2302 | Exactly when the estimator raises on non-negative inputs |
| Fees.ClampOnce | src/phantasma_py/carbon.py:2341-2354 | Clamping stage by stage equals clamping once: the exact v2 formula for the bill, and the padded formula with a quarter on top for max_gas |
| Fees.ClampOnceV1 | src/phantasma_py/carbon.py:2325-2338 | The same for both v1 results |
| Fees.EstimateMonotone | src/phantasma_py/carbon.py:2244-2338 | All outputs are non-decreasing in count and ROM/RAM bytes, for every kind and both models |
| Fees.RoundUpLeast | src/phantasma_py/carbon.py:2417-2419 | Rounding up yields the least multiple that is not smaller |
| FeeTerms.EstimateExact | src/phantasma_py/carbon.py:2244-2338 | Every estimate is the clamped formula of its gas model over units, policy fee, rows, envelope and event bytes, each written out operation by operation, the caller's or the worst case |
| FeeTerms.TermsThere | src/phantasma_py/carbon.py:2264-2302 | Every accepted request has such terms |
| FeeTerms.ItemsScale | src/phantasma_py/carbon.py:2275-2280 | n items of an NFT operation take n times the units of one |
| FeeTerms.CharactersHalve | src/phantasma_py/carbon.py:2281-2302 | Each further character halves the price of a symbol or name |
| Fees.EnvelopeRefused | src/phantasma_py/carbon.py:2226-2241 | The envelope is refused exactly for a negative length or witness count |
| NftRomBack.RomReadsBack | src/phantasma_py/carbon.py:2566-2574 | Decoding a ROM yields the schema's names in order, each with what the metadata gave for it, integers as signed two's-complement representatives, through nested structs and arrays |
| NftRomBack.StandardReadsBack | src/phantasma_py/carbon.py:2566-2574 | The id comes back as its signed 256-bit representative, the rom bytes unchanged |
| NftRomBack.ValueMeans | src/phantasma_py/carbon.py:3052-3141 | Every coerced value, once written and read, means what was given; for a DYNAMIC field that is an empty array, whatever was given |
| NftRomBack.DynamicLeavesNoTrace | src/phantasma_py/carbon.py:3052-3141 | Metadata that differs only in the values given for DYNAMIC fields gives the same ROM bytes |
| NftAccepts.CoerceExactly | src/phantasma_py/carbon.py:3052-3141 | Exactly which metadata value each type takes, with the literal integer ranges, through nested structs and arrays |
| NftAccepts.InputsExactly | src/phantasma_py/carbon.py:3144-3158 | A struct is given as a mapping or as a list of name and value pairs |
| NftAccepts.RomExactly | src/phantasma_py/carbon.py:3022-3032 | The rom bytes are those given under "rom", or none where no spelling of it occurs |
| NftAccepts.BuildExactly | src/phantasma_py/carbon.py:2566-2574 | A ROM is built exactly from rom bytes and fields that fit, if their struct can be written |
| NftRomBack.RepresentativeUnique | src/phantasma_py/carbon.py:3204-3221 | The signed representative of an integer in a width is unique |
| NftRom.IntRep | src/phantasma_py/carbon.py:3204-3221 | Coercing to 16, 32 or 64 bits yields the signed representative |
| NftRom.ByteRep | src/phantasma_py/carbon.py:610-611 | An INT8 keeps its unsigned form until it is written, and is then read as the signed representative |
| VmInteger.CSharpShortest | src/phantasma_py/binary.py:157-164 | The C# bytes of an integer are its shortest non-empty two's-complement form |
| VmInteger.PaddedBack | src/phantasma_py/binary.py:140-155 | The padded VM form decodes to the same integer |
| VmInteger.PaddedUnsigned | src/phantasma_py/binary.py:140-155 | For a non-negative integer it is the minimal unsigned bytes and exactly one zero byte |
| VmInteger.PaddedNegative | src/phantasma_py/binary.py:140-155 | For a negative integer it is the plain form with no, one or two further bytes, exactly when |
| VmBinary.VarUintBack | src/phantasma_py/binary.py:47-60 | Variable-length integers read back and leave what follows |
| VmBinary.VarBytesBack | src/phantasma_py/binary.py:62-65 | Byte strings read back exactly up to the array limit and are refused beyond it |
| VmBinary.VarBytesExtends | src/phantasma_py/binary.py:127-131 | Byte strings are read identically when more follows |
| BinaryIO.BinaryWriter.WriteVarUint | src/phantasma_py/binary.py:47-60 | The writer appends the encoding; a value past 64 bits leaves its prefix byte behind when it raises |
| BinaryIO.BinaryReader.ReadVarBytes | src/phantasma_py/binary.py:127-131 | The size is checked before anything is read |
| VmObject.WriteRead | src/phantasma_py/vm.py:102-134 | Whatever VMObject.write emits reads back as its normal form and leaves what follows, or is refused where it has none: OBJECTs of the wrong size become BYTES with their length prefix, and equal keys merge |
| VmObject.RoundTrip | src/phantasma_py/vm.py:252-290 | An object survives unchanged exactly when its structs have distinct keys that are not structs, its OBJECTs have 34 bytes and its payloads fit the array limit |
| VmObject.SurvivesExactly | src/phantasma_py/vm.py:102-134 | The same condition on the normal form alone |
| VmObject.ReadProper | src/phantasma_py/vm.py:102-134 | Every object read has distinct, hashable keys at every level and 34-byte OBJECTs, whatever the bytes |
| VmObject.ReadExtends | src/phantasma_py/vm.py:102-134 | An object is read identically when more bytes follow |
| VmObject.NoStrictPrefix | src/phantasma_py/vm.py:94-99 | No strict prefix of bytes that are one whole object is accepted |
| ObjectBytes.WritesImage | src/phantasma_py/vm.py:252-290 | Every object byte for byte: its literal type number and its framed payload, an OBJECT framed twice |
| ObjectBytes.ObjectSize | src/phantasma_py/vm.py:102-134 | A doubly framed payload is read as an OBJECT exactly if it has 34 bytes |
| ObjectBytes.BytesLimit | src/phantasma_py/binary.py:127-131 | Bytes are read back exactly up to 16 MiB |
| VmObjectIO.WriteObject | src/phantasma_py/vm.py:252-290 | VMObject.write drives the writer as the codec function says |
| VmObjectIO.ReadObject | src/phantasma_py/vm.py:102-134 | VMObject.read drives the reader as the codec function says, filling the dictionary entry by entry |
| VmObjectIO.FromBytes | src/phantasma_py/vm.py:94-99 | from_bytes yields the object when it takes the whole input, and raises otherwise |
| VmCast.ThroughBytes | src/phantasma_py/vm.py:136-232 | Numbers of any size, text and booleans survive a cast to bytes and back |
| VmCast.ThroughStruct | src/phantasma_py/vm.py:163-232 | Text survives a struct of UTF-16 code units (section 2 of RFC 2781) whenever it is not empty; empty text comes back as base64 of an empty struct |
| VmCast.UnitsBack | src/phantasma_py/vm.py:163-177 | Code units of any text decode to that text, surrogate pairs included |
| VmCast.WordThroughBytes | src/phantasma_py/vm.py:136-193 | A timestamp or enum cast to bytes and then to a number agrees with the direct cast exactly below 2^31 |
| VmCast.CastSettles | src/phantasma_py/vm.py:208-232 | A cast that succeeds yields the type asked for, an OBJECT asked to be a struct excepted, and casting again changes nothing |
| CastMeaning.NumberExactly | src/phantasma_py/vm.py:136-153 | Which number each object stands for, and that the conversion succeeds exactly for those |
| CastMeaning.BytesExactly | src/phantasma_py/vm.py:180-197 | The same for bytes |
| CastMeaning.TextExactly | src/phantasma_py/vm.py:154-178 | The same for text: number arrays decode as code units, other structs become base64 |
| CastMeaning.BoolExactly | src/phantasma_py/vm.py:199-206 | The same for truth values |
| CastMeaning.StructExactly | src/phantasma_py/vm.py:208-232 | What becomes of a cast to a struct |
| CastMeaning.ArrayTypeExactly | src/phantasma_py/vm.py:234-245 | A struct has an array type exactly if its keys are the numbers 0 to n-1 and its values are of one type |
| VmCast.ComputeArrayType | src/phantasma_py/vm.py:234-245 | The scan for an array's element type |
| VmCast.CollectUnits | src/phantasma_py/vm.py:163-177 | The loop that collects a number array's code units |
| VmCast.SpellOut | src/phantasma_py/vm.py:221-228 | The loop that spells text out as a struct of code units |
| ArgLoader.ArgsRunToEnd | src/phantasma_py/vm.py:597-600 | Unless an error is recorded, running the code for an argument tuple ends without a fault and leaves the arguments on the stack, first on top |
| ArgLoader.ArgRuns | src/phantasma_py/vm.py:602-633 | The code for one argument leaves its meaning in its register and touches none below it, and not the stack |
| ArgLoader.ListMeaning | src/phantasma_py/vm.py:617-631 | A non-empty list means the struct whose keys are 0 to n-1 and whose fields are the items in order |
| ArgLoader.LoadFails | src/phantasma_py/vm.py:602-633 | An error is recorded exactly for an unsupported or oversized scalar, or for lists nested past register 29 |
| ArgDenotes.ArgLoaded | src/phantasma_py/vm.py:602-633 | The register holds a value that denotes the argument, type by type: 1 or 0 for a bool, the least two's complement of a number, text that decodes to the text, a struct 0 to n-1 of the items |
| ArgDenotes.ArgsLoaded | src/phantasma_py/vm.py:597-600 | After the whole argument code the stack holds such values, first argument on top |
| ArgDenotes.ScalarCode | src/phantasma_py/vm.py:365-395 | A scalar is loaded by 0D, register, literal type, size and bytes |
| ArgDenotes.ListText | src/phantasma_py/vm.py:615-631 | A list is a cleared register filled entry by entry, item and index in the two registers above |
| ScriptModel.RunGood | src/phantasma_py/vm.py:345-454 | Over every sequence of builder calls the jump slots stay in bounds and pairwise disjoint, and every label stands just after its NOP, outside every slot |
| ScriptModel.LatestDefinition | src/phantasma_py/vm.py:402-405 | A label means the position just after the NOP of its latest definition |
| ScriptModel.NeverDefined | src/phantasma_py/vm.py:402-405 | A label has a position exactly when some call defined it |
| ScriptModel.FinishFails | src/phantasma_py/vm.py:324-343 | Finishing fails exactly on a recorded error, a missing label or a target above 0xFFFF |
| ScriptModel.FinishedScript | src/phantasma_py/vm.py:333-343 | The finished script is the emitted bytes outside the slots; each slot holds its label's position, little-endian, strictly inside the script and right after a NOP |
| ScriptText.StepText | src/phantasma_py/vm.py:345-454 | Every builder call appends its literal bytes, opens its slot, defines its label and records its error, whatever was emitted before |
| ScriptBuilder.Builder.ToScript | src/phantasma_py/vm.py:333-343 | The in-place patching loop computes the model's patched script, or raises |
| ScriptBuilder.Builder.EndScript | src/phantasma_py/vm.py:315-331 | end_script appends RET, then raises or yields the finished script |
| ScriptBuilder.Builder.EmitJump | src/phantasma_py/vm.py:407-416 | A jump moves the builder as the model's step says, errors and raised calls included |
| ScriptBuilder.Builder.EmitLoad | src/phantasma_py/vm.py:365-374 | A load moves the builder as the model's step says |
| ScriptBuilder.Builder.EmitLabel | src/phantasma_py/vm.py:402-405 | A label definition moves the builder as the model's step says |
| ScriptBuilder.Builder.LoadIntoRegister | src/phantasma_py/vm.py:602-633 | The recursive loader appends exactly the modelled code and records exactly the modelled errors |
| ScriptBuilder.Builder.InsertMethodArgs | src/phantasma_py/vm.py:597-600 | Arguments are loaded from the last to the first |
| ScriptBuilder.Builder.CallContract | src/phantasma_py/vm.py:444-454 | call_contract moves the builder as the model's step says |
| Base58.DecodeEncode | src/phantasma_py/encoding.py:16-45 | Decoding an encoding gives the bytes back, leading zero bytes included |
| Base58.EncodeDecode | src/phantasma_py/encoding.py:29-45 | Decoding accepts exactly the non-empty texts over the alphabet, and encoding the result gives the text back, leading ones included |
| Base58.RadixBack | src/phantasma_py/encoding.py:16-45 | Changing the radix of a digit string and back is the identity when leading zeros are carried over |
| Base58.EncodeBase58 | src/phantasma_py/encoding.py:16-26 | The divmod loop computes the encoding |
| Base58.DecodeBase58 | src/phantasma_py/encoding.py:29-45 | The accumulating loop computes the decoding |
| Base58.AlphabetInOrder | src/phantasma_py/encoding.py:12-13 | The alphabet lists the 58 digits in order |
| Json.VmBack | src/phantasma_py/vm_value.py:71-103 | Every VM value is read back from what it is written as |
| Json.SameWire | src/phantasma_py/vm_value.py:71-103 | JSON decoded to a VM value is written back as it came exactly when all its scalars are text |
| WireShapes.CamelDistinct | src/phantasma_py/_wire_shapes.py:30-33 | Different snake-case names have different wire names, and no wire name is another field's name |
| WireShapes.NamesSuffice | src/phantasma_py/_wire_shapes.py:36-43 | Distinct snake-case names keep a dataclass's wire names apart, one-word overrides included |
| WireShapes.ShapeAgain | src/phantasma_py/_wire_shapes.py:46-138 | What a shape decodes to is decoded again from what it is written as, nested shapes, optional fields and defaults included |
| WireShapes.DecodeByFields | src/phantasma_py/_wire_shapes.py:46-62 | The loop over a shape's fields computes the decoding, or reports the mismatch |
| WireShapes.WriteByFields | src/phantasma_py/_wire_shapes.py:123-130 | The loop that fills the written object, leaving out what is None |
| WireKept.ShapeKept | src/phantasma_py/_wire_shapes.py:46-138 | Exactly which objects a shape takes, and what is written for them: one member for each field, under its wire name, as it was or its default |
| WireKept.MemberKept | src/phantasma_py/_wire_shapes.py:46-138 | The member a field was read from stands under the field's wire name again |
| WireKept.VmKept | src/phantasma_py/vm_value.py:71-103 | A VM value keeps places, names and texts; other scalars become their text |
| Shapes.DataclassGood | src/phantasma_py/_wire_shapes.py:36-138 | Any dataclass with distinct snake-case names and the usual defaults decodes what it writes |
| Arguments.SpelledGood | src/phantasma_py/_wire_shapes.py:36-43 | So does one with a field under a wire name of its own |
| Arguments.StartingGood | src/phantasma_py/_wire_shapes.py:46-62 | And one with a text default of its own |
| Shapes.EventShapesGood | src/phantasma_py/extended_events.py:41-198 | The event shapes decode what they write |
| Arguments.ArgumentShapesGood | src/phantasma_py/special_resolution_arguments.py:548-598 | Every entry of the table of argument shapes decodes what it writes, wire overrides, inherited fields, nested shapes and defaults included, and never writes the name that marks an undecoded buffer |
| Arguments.ImportGood | src/phantasma_py/special_resolution_arguments.py:208-241 | Among them the contracts of tables of rows |
| ShapeFields.EventShapeExactly | src/phantasma_py/extended_events.py:41-198 | The event kinds and the fields of their payloads, with annotation and default, are exactly those declared |
| ShapeFields.ArgumentShapeExactly | src/phantasma_py/special_resolution_arguments.py:40-598 | So are the methods that have an argument shape, and its fields, inherited, renamed and nested ones included |
| Events.EventAgain | src/phantasma_py/extended_events.py:227-254 | Decoding is total over all JSON, and decoding what was written for a decoded event gives that event, through resolutions nested to any depth |
| Events.CallAgain | src/phantasma_py/extended_events.py:110-143 | The same for the calls of a resolution |
| Events.ResolutionAgain | src/phantasma_py/extended_events.py:155-173 | The same for a resolution's envelope |
| Events.ArgsAgain | src/phantasma_py/special_resolution_arguments.py:601-628 | The same for a call's arguments |
| Events.UnmatchedKept | src/phantasma_py/extended_events.py:201-222 | A payload is kept as unknown data exactly when no modelled shape matches it, and is then written back unchanged |
| Events.UnmatchedArgumentsKept | src/phantasma_py/special_resolution_arguments.py:601-628 | A call's arguments are kept raw exactly when the shape chosen for them does not match, and are then written back unchanged |
| Events.WriteEvent | src/phantasma_py/extended_events.py:245-254 | EventExResult.to_wire fills its dictionary step by step |
| Events.WriteCall | src/phantasma_py/extended_events.py:130-143 | SpecialResolutionCall.to_wire fills its dictionary step by step |
| EventsKept.EventIsKept | src/phantasma_py/extended_events.py:227-254 | Reading an event and writing it back keeps its address, contract and kind, and its payload: member by member where the kind's shape takes it, call by call in a resolution, and otherwise whole |
| EventsKept.CallIsKept | src/phantasma_py/extended_events.py:110-143 | The same for a call: its ids and names, its arguments, and the calls inside it in order |
| EventsKept.ResolutionIsKept | src/phantasma_py/extended_events.py:155-184 | The same for a resolution |

## Left out

- Network transport, response dataclasses and parameter forwarding (`src/phantasma_py/rpc.py`).
- Keys, signing and hashing: signatures are opaque 64-byte values; `src/phantasma_py/crypto.py` and `src/phantasma_py/transaction.py` are not part of this model.
- The flat Carbon argument records (market, token, burn and mint arguments, ChainConfig, GasConfig's own codec): field-by-field uses of the primitives and the generic record layouts proved here.
- The `_text`, `_hex` and `_and_sign` wrappers, default expiry from the clock, icon URIs, JSON text parsing, hex parsing.
- The VM interpreter, beyond the four opcodes the argument loader emits.
- Python payloads whose type does not fit their tag, and the coercions that would repair them, in `write_static`.
- In-place sorting as seen through aliases: a dynamic struct is a value here, so that `write_carbon` also sorts its caller's list is not captured.
- What a reader's offset or a Carbon writer's buffer holds after a call has raised, other than where stated.
- NftRomBack.RomReadsBack: metadata values that are already dynamic variables, structs or struct arrays are not modelled; the schema is one that survives its own serialisation, so a struct definition on a field that is no struct is excluded too.
- VmCast.ThroughBytes: text to number and number to text go through Python's own `int` and `str`, which are parameters, so nothing is claimed about them.
- TxBytes.EnvelopeExact: stated for the fee kinds that price a message's type; PhantasmaRaw carries no witnesses and has no fee kind.
- Floating-point numbers in JSON: they are known by the text Python prints for them.
- Python's recursion limit.
