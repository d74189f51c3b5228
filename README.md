# TypeFactory of LibDat, modelled in Dafny

LibDat reads the `.dat` tables of a game archive. Each field of a record has a
type given by a schema string such as `int`, `ref|string` or
`ref|list|ref|string`. `LibDat/Types/TypeFactory.cs` does four jobs:

- **Codec tables.** `ReadFuncs` and `WriteFuncs` map each CLR primitive kind to
  its binary reader or writer. Those kinds are `bool`, `byte`, `short`, `int`,
  `uint`, `long`, `ulong` and `string`. `Read<T>` and `Write<T>` dispatch through
  these tables.
- **Type table.** `LoadValueTypes` installs the eight primitive descriptors.
- **Schema parser.** `ParseType` turns a schema string into a descriptor tree. A
  `ref|X` becomes a pointer to X and a `list|X` a list of X. Every result is
  cached in the table under its full string.
- **Decoder.** `ReadType` decodes one datum of a descriptor at a stream position.
  It follows a pointer or list slot into the data section, records the offset,
  and stores strings and lists in the container's table of data entries.

The project has seven modules:

- `Errors` (errors.dfy) holds `Option`, `Result`, and one error per exception
  `LibDat/Types/TypeFactory.cs` throws.
- `LittleEndian` (little_endian.dfy) holds little-endian unsigned and
  two's-complement conversions and their round trips.
- `Wire` (wire.dfy) states what the readers and writers put on the wire, as pure
  functions of the bytes. `ReadAt` is `Read<T>` as a function, `Encode` is what
  the writers emit, and `StringAt` is the string reader.
- `Streams` (streams.dfy) holds a `Reader` class (fixed bytes and a mutable
  position) and a `Writer` class (an appended byte sequence). They stand in for
  .NET's `BinaryReader` and `BinaryWriter`.
- `Codec` (codec.dfy) holds `Read<T>` and `Write<T>` as methods on those
  objects. It includes the two string loops, proved against the `Wire`
  functions.
- `Schema` (schema.dfy) holds the descriptor datatype. `Parse` gives the meaning
  of a schema string independent of any cache. The module also proves facts
  about it: parsing succeeds exactly on well-formed descriptors and inverts
  their names, and it gives the widths and the ways a schema is rejected.
- `Types` (types.dfy) holds the `TypeFactory` class. Its fields are the type
  table, the data-section offset and the data entries. `ParseType` updates the
  table in place and is proved to agree with `Parse`. `ReadType` moves the
  reader and updates the entries, and is proved to agree with the function
  `Decode`.

The constructors of the data classes do their own reading; `ListData`,
`PointerData`, `ValueData<T>`, `Int32Data`, `Int64Data` and `StringData` are not
part of this model. `ReadType` takes that reading as a parameter
`construct`. Given the class, the descriptor, the recorded offset, the bytes
and the position, it returns what was read and where the stream stands, or a
failure.

A string ends in four zero bytes in all. The writer emits the code units and
then `Write(0)`, an `int` zero, which is four zero bytes
(`LibDat/Types/TypeFactory.cs:59`). The reader reads units up to a zero unit and
then one more 2-byte unit, which must be zero; the check at line 37 is
commented "string should end with int(0)". This model uses the same four bytes.

## Model

| member | source | states |
|---|---|---|
| LittleEndian.UnsignedBytes | LibDat/Types/TypeFactory.cs:46-52 | the n little-endian bytes of an unsigned value read back as that value |
| LittleEndian.UnsignedBytesOfUnsigned | LibDat/Types/TypeFactory.cs:24-30 | writing back an unsigned value that was read gives the same bytes |
| LittleEndian.SignedBytes | LibDat/Types/TypeFactory.cs:46-52 | the two's-complement bytes of an in-range signed value read back as that value |
| LittleEndian.SignedBytesOfSigned | LibDat/Types/TypeFactory.cs:24-30 | writing back a signed value that was read gives the same bytes |
| LittleEndian.UnsignedZero | LibDat/Types/TypeFactory.cs:34-38 | only all-zero bytes read as the unsigned value zero, so a zero unit is two zero bytes |
| Wire.FromBytes | LibDat/Types/TypeFactory.cs:24-30 | each fixed-width reader gives a value of its own kind |
| Wire.CharBytes | LibDat/Types/TypeFactory.cs:57 | a code unit is written as two bytes that read back as the unit |
| Wire.Encode | LibDat/Types/TypeFactory.cs:46-60 | the bytes each writer emits; a fixed-width kind emits exactly its width |
| Wire.EncodeString | LibDat/Types/TypeFactory.cs:53-60 | the string writer as a function: two bytes per code unit, then the four bytes of the int zero, 2n + 4 bytes in all; StringAtEncoded and StringAtDecodes prove it is what the string reader accepts |
| Wire.IntZeroBytes | LibDat/Types/TypeFactory.cs:59 | the `int` zero written after a string is four zero bytes |
| Wire.StringAt | LibDat/Types/TypeFactory.cs:31-40 | the string reader as a function: on success the text has no zero unit and the reader stands right after its encoding, inside the data |
| Wire.StringAtDecodes | LibDat/Types/TypeFactory.cs:31-40 | the bytes the string reader consumes are exactly the writer's encoding of the text it returns |
| Wire.ReadAt | LibDat/Types/TypeFactory.cs:21-41 | an unregistered kind fails with NotImplemented; a successful read has the requested kind and moves forward within the data; except for bool, the bytes consumed are what the writer emits for the value |
| Wire.BytesRoundTrip | LibDat/Types/TypeFactory.cs:24-30 | except for bool, re-encoding a fixed-width value gives back the bytes it was read from |
| Wire.ValueRoundTrip | LibDat/Types/TypeFactory.cs:46-52 | a fixed-width value reads back as itself from the bytes written for it |
| Wire.EncodeCharsAppend | LibDat/Types/TypeFactory.cs:55-58 | writing one more code unit appends its two bytes to the encoding |
| Wire.StringAtEncoded | LibDat/Types/TypeFactory.cs:31-40 | reading a written string with no zero unit gives it back and stops after its four terminating zero bytes |
| Wire.StringAtBrokenTerminator | LibDat/Types/TypeFactory.cs:36-38 | a zero unit followed by a nonzero unit makes the reader fail with the missing-terminator error |
| Wire.ReadAtEncoded | LibDat/Types/TypeFactory.cs:21-61 | every value read back from its encoding is itself, consuming exactly its bytes (a string provided it has no zero unit) |
| Streams.Reader.ReadBytes | LibDat/Types/TypeFactory.cs:180-181 | reads the next n bytes and advances by n, or fails with end of stream |
| Streams.Reader.ReadInt32 | LibDat/Types/TypeFactory.cs:180-181 | four bytes as a two's-complement int, or end of stream |
| Streams.Reader.ReadChar | LibDat/Types/TypeFactory.cs:34 | one 16-bit little-endian code unit, or end of stream |
| Streams.Reader.Seek | LibDat/Types/TypeFactory.cs:182 | moves to any position that is not negative; a negative one fails and leaves the position alone |
| Streams.Writer.WriteBytes | LibDat/Types/TypeFactory.cs:46-52 | appends the bytes to what was written |
| Codec.StringAtZero | LibDat/Types/TypeFactory.cs:35-38 | after a zero unit, the next unit decides between the end of the text and a missing terminator |
| Codec.ReadString | LibDat/Types/TypeFactory.cs:31-40 | the loop returns what StringAt gives and leaves the reader where StringAt ends, or fails as it does |
| Codec.Read | LibDat/Types/TypeFactory.cs:63-68 | Read<T> returns what ReadAt gives and leaves the reader where ReadAt ends, or fails as it does |
| Codec.WriteString | LibDat/Types/TypeFactory.cs:53-60 | the loop appends exactly EncodeString of the text |
| Codec.WriteValue | LibDat/Types/TypeFactory.cs:70-75 | the evidently intended Write<T>: a matching value of a registered kind is written and reads back as itself; otherwise InvalidCast or NotImplemented, with nothing written |
| Codec.Write | LibDat/Types/TypeFactory.cs:70-75 | Write<T> as written: it appends the encoding when the value has the requested kind, and it always ends in an error: InvalidCast exactly when a registered kind gets a value of another kind, NotImplemented otherwise |
| Codec.WriteAlwaysThrows | LibDat/Types/TypeFactory.cs:72-74 | even a correctly typed value of a registered kind ends in NotImplemented |
| Schema.Primitive | LibDat/Types/TypeFactory.cs:147-157 | each primitive descriptor carries its own name and pointer width 4, and its name is a word |
| Schema.PrimitiveTable | LibDat/Types/TypeFactory.cs:145-158 | the loaded table has exactly the eight names, each mapped to its primitive |
| Schema.PrimitiveNamesExact | LibDat/Types/TypeFactory.cs:147-157 | only the eight names are primitives |
| Schema.PrimitiveWidths | LibDat/Types/TypeFactory.cs:149-156 | the widths: bool and byte 1, short 2, int and uint 4, long and ulong 8, string variable (-1) |
| Schema.WordRun | LibDat/Types/TypeFactory.cs:97 | the longest run of word characters at the start of the string |
| Schema.SplitType | LibDat/Types/TypeFactory.cs:97-106 | a prefix split yields a nonempty word, a bar and a nonempty rest that rebuild the string |
| Schema.SplitPrefixed | LibDat/Types/TypeFactory.cs:97-106 | a word, a bar and a nonempty rest always split as that prefix and rest |
| Schema.SplitAllWord | LibDat/Types/TypeFactory.cs:100-102 | a string of word characters only has no prefix |
| Schema.ParseWord | LibDat/Types/TypeFactory.cs:100-102 | a nonempty word parses as a primitive lookup |
| Schema.PrimitiveOf | LibDat/Types/TypeFactory.cs:135-143 | ParseValueType against the primitive table succeeds exactly on the eight names, with the descriptor named by the string |
| Schema.Parse | LibDat/Types/TypeFactory.cs:91-133 | a successful parse yields a descriptor named by the whole schema string |
| Schema.ParsePrefixed | LibDat/Types/TypeFactory.cs:104-122 | one prefix step: ref and list parse the rest and fail as it does; any other prefix fails with UnknownComplexType; the stored strings are this one and those of the rest |
| Schema.ParseWellFormed | LibDat/Types/TypeFactory.cs:91-133 | every descriptor ParseType produces is well formed: a primitive, or a pointer or list named "ref\|"/"list\|" plus its target's name, with ParseType's widths |
| Schema.ParseName | LibDat/Types/TypeFactory.cs:91-133 | every well-formed descriptor is what its own name parses to, so parsing is a bijection onto the well-formed descriptors |
| Schema.ParseRef | LibDat/Types/TypeFactory.cs:109-113 | "ref\|X" points to what X denotes: width is X's pointer width, pointer width 4; a failure of X is its failure |
| Schema.ParseList | LibDat/Types/TypeFactory.cs:114-118 | "list\|X" lists what X denotes: width -1, pointer width 8; a failure of X is its failure |
| Schema.ParseRejects | LibDat/Types/TypeFactory.cs:119-128 | the rejections: empty schema, a non-word unprefixed schema, an unknown word, and an unknown prefix |
| Schema.PointerWidths | LibDat/Types/TypeFactory.cs:111-117 | pointer width is 8 for a list and 4 otherwise, so a pointer to a list is 8 bytes wide and any other pointer 4 |
| Schema.RefPrimitive | LibDat/Types/TypeFactory.cs:109-113 | a pointer to a primitive is 4 bytes wide |
| Schema.RefListWidth | LibDat/Types/TypeFactory.cs:109-118 | a pointer to a list is 8 bytes wide, whatever the list holds |
| Schema.UnknownPrefixExample | LibDat/Types/TypeFactory.cs:119-122 | "foo\|int" fails with UnknownComplexType |
| Schema.UnknownWordExample | LibDat/Types/TypeFactory.cs:256-261 | "frobnicate" fails with UnknownDataType |
| Schema.BarePrefixExample | LibDat/Types/TypeFactory.cs:97-102 | "ref\|" has no rest, so it is no prefix and fails the value-type check |
| Schema.Chain | LibDat/Types/TypeFactory.cs:130-131 | the strings a successful ParseType stores include the string itself |
| Types.DataClassOf | LibDat/Types/TypeFactory.cs:207-237 | the switch on the value descriptor's name has a class exactly for the eight primitive names, and StringData exactly for "string" |
| Types.ParsedValueTypesHaveClass | LibDat/Types/TypeFactory.cs:234-235 | every value descriptor ParseType produces has a class, so the unknown-name branch is unreachable for them |
| Types.Locate | LibDat/Types/TypeFactory.cs:192-206 | at a pointer, the 4-byte offset read there; otherwise the current offset; either way the data sits at the data-section offset plus the recorded offset |
| Types.Decode | LibDat/Types/TypeFactory.cs:168-239 | an unpointed list fails; the datum has the descriptor; the constructor runs at the data's absolute position; a list takes count then offset from the slot; a pointer read at a pointer takes its offset from the slot; a pointer gives PointerData and a value its class; only lists and strings are registered |
| Types.Instantiate | LibDat/Types/TypeFactory.cs:183 | a constructor run leaves the reader where its reading ends |
| Types.StoreKeepsCoherent | LibDat/Types/TypeFactory.cs:130-131 | storing what a string parses to keeps the table coherent once its rest is stored |
| Types.TypeFactory.constructor | LibDat/Types/TypeFactory.cs:79 | the table starts unloaded and the entries start empty |
| Types.TypeFactory.LoadValueTypes | LibDat/Types/TypeFactory.cs:145-158 | replaces the table by the eight primitives, which makes it coherent |
| Types.TypeFactory.HasTypeInfo | LibDat/Types/TypeFactory.cs:251-254 | a known string parses to its entry, and every primitive is known |
| Types.TypeFactory.GetTypeInfo | LibDat/Types/TypeFactory.cs:256-261 | a known string gives what it parses to; an unknown one fails with UnknownDataType and is no primitive |
| Types.TypeFactory.ParseValueType | LibDat/Types/TypeFactory.cs:135-143 | through the table it gives exactly the primitive lookup, whatever else the table caches |
| Types.TypeFactory.Store | LibDat/Types/TypeFactory.cs:130-131 | storing a parsed string adds exactly that key and keeps the table coherent |
| Types.TypeFactory.ParseType | LibDat/Types/TypeFactory.cs:91-133 | the result is Parse of the string; a cached string leaves the table alone; a success stores the result under the string and adds exactly the strings of its prefix chain; a failure changes nothing; an uncached unprefixed string always fails |
| Types.TypeFactory.ParseComplexType | LibDat/Types/TypeFactory.cs:104-122 | the ref and list branches give Parse of the string, store it after the rest, and change nothing on failure |
| Types.TypeFactory.GetOffset | LibDat/Types/TypeFactory.cs:241-244 | the offset plus the data-section offset is the reader's position |
| Types.TypeFactory.ReadType | LibDat/Types/TypeFactory.cs:168-239 | the outcome and the new reader position are Decode's; a list or string is stored under its offset, replacing any earlier entry, and nothing else is stored; an unpointed list does not move the reader |

## Left out

- The constructors of `ListData`, `PointerData`, `ValueData<T>`, `Int32Data`, `Int64Data` and `StringData` are not part of this model. Their reading is the `construct` parameter, so entries they might store themselves are not modelled.
- `DatContainer` is not part of this model. Its static `DataSectionOffset` and `DataEntries` are fields of the `TypeFactory` class, as is the static `_types` table.
- The regular expressions are modelled only for ASCII word characters. .NET's `\w` also matches other Unicode letters and digits, and `.` does not match a newline; neither is modelled. A schema is split at its leading word and bar when something follows the bar.
- The text encoding of the `BinaryReader` is taken to be 16-bit little-endian code units, as the string writer emits them. Surrogate pairs and other encodings are not modelled.
- Types.TypeFactory.ReadType: the reader position after a failure is not stated, because every failure is an exception that aborts the decode.
- Codec.ReadString: the reader position after a failure is not stated, for the same reason.
- Types.TypeFactory.GetOffset: the `(int)` cast of the stream position and 32-bit overflow of `DataSectionOffset + offset` are not modelled; positions and offsets are unbounded integers.
- Types.TypeFactory.ParseType: it requires that `LoadValueTypes` has run. Before that the table is null and the source fails with a null reference, which is not modelled.
- Types.TypeFactory.ParseType: the plain-word branch returns the value-type lookup directly. Every primitive is cached, so an uncached word always fails and the store that follows it in the source is never reached from that branch.
- No cycle detection: a schema only recurses on a strictly shorter suffix, so parsing always terminates (`decreases |fieldType|`).
- Exception messages are not modelled; each exception is one `Error` value.
- `Write<T>` and `Read<T>` for arbitrary CLR types collapse every unregistered type into `OtherT`. The boxed `obj` of `Write<T>` is one of the eight value kinds; other boxed objects are not modelled.
- VisualGGPK/MainWindow.xaml.cs, the user interface, is not part of this model.

## Findings

| source | as written | input that shows it | evidently intended | confidence | as-written member | corrected member |
|---|---|---|---|---|---|---|
| LibDat/Types/TypeFactory.cs:70-75 | after a registered writer runs, control falls through to `throw new NotImplementedException()` | `Write<int>(bw, 5)`: the four bytes of 5 are written, then NotImplementedException is thrown | return normally after writing a supported kind | high; not executed | Codec.WriteAlwaysThrows | Codec.WriteValue |
