/** The TypeFactory of LibDat/Types/TypeFactory.cs: the type table that
    LoadValueTypes fills and ParseType extends, and ReadType, which follows a
    pointer or list slot, records where the data sits and registers strings and
    lists in the container's table of data entries. */
module Types {
  import opened Errors
  import opened LittleEndian
  import opened Wire
  import opened Streams
  import opened Schema

  /** The class ReadType instantiates: ListData (with the count read from the
      slot), PointerData, ValueData<T>, Int32Data, Int64Data or StringData. */
  datatype DataClass = ListData(count: int) | PointerData | ValueData(kind: ClrType) | Int32Data | Int64Data | StringData

  /** A decoded datum: its class, its descriptor, the offset recorded with it
      (relative to the data section) and whatever its constructor read. */
  datatype Data<B> = Data(cls: DataClass, dtype: DataType, offset: int, body: B)

  /** The reading done inside the data class constructors, which is not part of
      this model: given the class, the descriptor, the recorded offset, the bytes
      and the position the stream stands at, what was read and where the stream
      stands afterwards, or the failure. */
  type Construct<B> = (DataClass, DataType, int, seq<Byte>, nat) -> Result<(B, nat)>

  /** The switch on the name of a value descriptor. */
  function DataClassOf(name: string): (r: Option<DataClass>)
    ensures r.Some? <==> Primitive(name).Some?
    ensures r == Some(StringData) <==> name == "string"
  {
    if name == "bool" then Some(ValueData(BoolT))
    else if name == "byte" then Some(ValueData(ByteT))
    else if name == "short" then Some(ValueData(ShortT))
    else if name == "int" then Some(Int32Data)
    else if name == "uint" then Some(ValueData(UIntT))
    else if name == "long" then Some(Int64Data)
    else if name == "ulong" then Some(ValueData(ULongT))
    else if name == "string" then Some(StringData)
    else None
  }

  /** Every value descriptor a schema string parses to has a class in the
      switch of ReadType, so its "Unknown value type name" branch is only
      reachable with descriptors built outside ParseType. */
  lemma {:induction false} ParsedValueTypesHaveClass(s: string)
    requires Parse(s).Success? && Parse(s).value.ValueType?
    ensures DataClassOf(Parse(s).value.name).Some?
  {
    ParseWellFormed(s);
  }

  /** Where the data of a slot is: at a pointer, the 4-byte offset read there
      and the absolute position base + offset it seeks to; otherwise the
      current position and its offset from the base. Either way the data sits
      at base + recorded offset. */
  function Locate(bytes: seq<Byte>, pos: nat, atPointer: bool, base: int): (r: Result<(int, nat)>)
    ensures r.Success? ==> base + r.value.0 == r.value.1
    ensures !atPointer ==> r.Success? && r.value.1 == pos
    ensures atPointer ==> (r.Success? <==> pos + 4 <= |bytes| && base + Signed(bytes[pos..pos + 4]) >= 0)
    ensures atPointer && r.Success? ==> r.value.0 == Signed(bytes[pos..pos + 4])
  {
    if !atPointer then Success((pos - base, pos))
    else if pos + 4 > |bytes| then Failure(EndOfStream)
    else
      var offset := Signed(bytes[pos..pos + 4]);
      if base + offset < 0 then Failure(SeekBeforeBegin)
      else Success((offset, base + offset))
  }

  /** The outcome of ReadType: the datum, where the stream stands afterwards,
      and whether the datum is stored in the data entries under its offset. */
  datatype Decoded<B> = Decoded(data: Data<B>, next: nat, registered: bool)

  /** ReadType as a function of the bytes, the start position, the pointer
      flag, the data-section base and the constructors' reading. */
  function Decode<B>(t: DataType, bytes: seq<Byte>, pos: nat, atPointer: bool, base: int, construct: Construct<B>)
    : (r: Result<Decoded<B>>)
    ensures t.ListType? && !atPointer ==> r == Failure(ListNotPointed)
    ensures r.Success? ==> r.value.data.dtype == t
    ensures r.Success? ==>
              && base + r.value.data.offset >= 0
              && construct(r.value.data.cls, t, r.value.data.offset, bytes, base + r.value.data.offset)
                 == Success((r.value.data.body, r.value.next))
    ensures r.Success? && !atPointer ==> r.value.data.offset == pos - base
    ensures r.Success? && t.ListType? ==>
              && pos + 8 <= |bytes|
              && r.value.data.cls == ListData(Signed(bytes[pos..pos + 4]))
              && r.value.data.offset == Signed(bytes[pos + 4..pos + 8])
    ensures r.Success? && atPointer && !t.ListType? ==>
              pos + 4 <= |bytes| && r.value.data.offset == Signed(bytes[pos..pos + 4])
    ensures r.Success? && t.PointerType? ==> r.value.data.cls == PointerData
    ensures r.Success? && t.ValueType? ==> DataClassOf(t.name) == Some(r.value.data.cls)
    ensures r.Success? ==> (r.value.registered <==> t.ListType? || r.value.data.cls == StringData)
    ensures t.ValueType? && DataClassOf(t.name).None? ==> r.Failure?
  {
    if t.ListType? then
      if !atPointer then Failure(ListNotPointed)
      else if pos + 4 > |bytes| then Failure(EndOfStream)
      else
        var count := Signed(bytes[pos..pos + 4]);
        var at :- Locate(bytes, pos + 4, true, base);
        var built :- construct(ListData(count), t, at.0, bytes, at.1);
        Success(Decoded(Data(ListData(count), t, at.0, built.0), built.1, true))
    else
      var at :- Locate(bytes, pos, atPointer, base);
      if t.PointerType? then
        var built :- construct(PointerData, t, at.0, bytes, at.1);
        Success(Decoded(Data(PointerData, t, at.0, built.0), built.1, false))
      else match DataClassOf(t.name)
        case None => Failure(UnknownValueTypeName)
        case Some(cls) =>
          var built :- construct(cls, t, at.0, bytes, at.1);
          Success(Decoded(Data(cls, t, at.0, built.0), built.1, cls == StringData))
  }

  /** Runs a data class constructor on the reader: the stream moves to where
      the constructor's reading leaves it. */
  method Instantiate<B>(cls: DataClass, t: DataType, offset: int, reader: Reader, construct: Construct<B>)
    returns (r: Result<Data<B>>)
    modifies reader`pos
    ensures match construct(cls, t, offset, reader.data, old(reader.pos))
      case Success(built) => r == Success(Data(cls, t, offset, built.0)) && reader.pos == built.1
      case Failure(e) => r == Failure(e)
  {
    var built :- construct(cls, t, offset, reader.data, reader.pos);
    reader.pos := built.1;
    return Success(Data(cls, t, offset, built.0));
  }

  /** A type table as ParseType keeps it: it holds the primitives, every entry
      is what its key parses to, and with a schema it holds the rest of every
      prefix it strips. */
  ghost predicate Coherent(types: map<string, DataType>) {
    && (forall k | Primitive(k).Some? :: k in types)
    && (forall k | k in types :: Parse(k) == Success(types[k]))
    && (forall k | k in types :: Chain(k) <= types.Keys)
  }

  /** Storing what a schema parses to keeps a table coherent, once the rest of
      the schema is stored. */
  lemma StoreKeepsCoherent(types: map<string, DataType>, s: string, t: DataType)
    requires Coherent(types) && Parse(s) == Success(t) && Chain(s) <= types.Keys + {s}
    ensures Coherent(types[s := t])
  {
    var m := types[s := t];
    assert m.Keys == types.Keys + {s};
    forall k | k in m
      ensures Parse(k) == Success(m[k])
    {
      if k != s {
        assert m[k] == types[k];
      }
    }
    forall k | k in m
      ensures Chain(k) <= m.Keys
    {
      if k != s {
        assert Chain(k) <= types.Keys;
      }
    }
  }

  lemma UnionSwap<T>(a: set<T>, b: set<T>, c: set<T>)
    ensures (a + b) + c == a + (c + b)
  {
  }

  class TypeFactory<B> {
    /** DatContainer.DataSectionOffset: where the data section starts. */
    const dataSectionOffset: int
    /** Whether LoadValueTypes has run (before it, the table is null). */
    var loaded: bool
    /** The type table, keyed by schema string. */
    var types: map<string, DataType>
    /** DatContainer.DataEntries: decoded strings and lists by offset. */
    var entries: map<int, Data<B>>

    /** The table has been loaded and is coherent. */
    ghost predicate Valid()
      reads this
    {
      loaded && Coherent(types)
    }

    constructor (dataSectionOffset: int)
      ensures this.dataSectionOffset == dataSectionOffset
      ensures !loaded && types == map[] && entries == map[]
    {
      this.dataSectionOffset := dataSectionOffset;
      loaded := false;
      types := map[];
      entries := map[];
    }

    /** Replaces the table by the eight primitives. */
    method LoadValueTypes()
      modifies this`types, this`loaded
      ensures Valid() && types == PrimitiveTable()
    {
      types := PrimitiveTable();
      loaded := true;
      forall k | Primitive(k).Some?
        ensures k in types
      {
        PrimitiveNamesExact(k);
      }
      forall k | k in types
        ensures Parse(k) == Success(types[k])
      {
        ParseName(types[k]);
      }
      forall k | k in types
        ensures Chain(k) <= types.Keys
      {
        SplitAllWord(k);
      }
    }

    /** Whether the table knows the schema string; every primitive is known,
        and a known string parses to its entry. */
    function HasTypeInfo(t: string): (b: bool)
      reads this
      requires Valid()
      ensures b ==> t in types && Parse(t) == Success(types[t])
      ensures Primitive(t).Some? ==> b
    {
      t in types
    }

    /** The entry of a known schema string, which is what the string parses to;
        an unknown one fails with UnknownDataType. */
    function GetTypeInfo(t: string): (r: Result<DataType>)
      reads this
      requires Valid()
      ensures r.Success? ==> r == Parse(t)
      ensures r.Failure? ==> r.error == UnknownDataType && Primitive(t).None?
    {
      if !HasTypeInfo(t) then Failure(UnknownDataType) else Success(types[t])
    }

    /** An unprefixed schema: the whole string must be word characters and be
        in the table; because every word in the table is a primitive, this is
        the primitive lookup whatever the table has cached. */
    function ParseValueType(s: string): (r: Result<DataType>)
      reads this
      requires Valid()
      ensures r == PrimitiveOf(s)
    {
      if s != [] && AllWord(s) then
        ParseWord(s);
        GetTypeInfo(s)
      else Failure(InvalidValueType)
    }

    /** Stores a parsed schema string whose rest is already stored. */
    method Store(fieldType: string, t: DataType)
      requires Valid() && Parse(fieldType) == Success(t) && Chain(fieldType) <= types.Keys + {fieldType}
      modifies this`types
      ensures Valid() && types == old(types)[fieldType := t]
      ensures types.Keys == old(types).Keys + {fieldType}
    {
      StoreKeepsCoherent(types, fieldType, t);
      types := types[fieldType := t];
    }

    /** Parses a schema string through the table: a cached string returns its
        entry and leaves the table alone; otherwise the result is stored under
        the whole string, after the recursive call has stored the rest. */
    method ParseType(fieldType: string) returns (r: Result<DataType>)
      requires Valid()
      modifies this`types
      decreases |fieldType|, 1
      ensures Valid()
      ensures r == Parse(fieldType)
      ensures fieldType in old(types) ==> types == old(types)
      ensures r.Success? ==> fieldType in types && types[fieldType] == r.value
      ensures r.Success? ==> types.Keys == old(types).Keys + Chain(fieldType)
      ensures r.Failure? ==> types == old(types)
      ensures fieldType !in old(types) && SplitType(fieldType).Plain? ==> r.Failure?
    {
      if HasTypeInfo(fieldType) {
        assert Chain(fieldType) <= types.Keys;
        return GetTypeInfo(fieldType);
      }
      if fieldType == [] {
        return Failure(InvalidTypeDefinition);
      }
      if SplitType(fieldType).Plain? {
        // Every primitive is cached, so an uncached word always fails here
        // and is never stored.
        assert Parse(fieldType) == PrimitiveOf(fieldType);
        assert Primitive(fieldType).None?;
        return ParseValueType(fieldType);
      }
      r := ParseComplexType(fieldType);
    }

    /** The "ref|" and "list|" branch of ParseType for an uncached string: both
        parse the rest first and fail as it does; any other prefix fails with
        UnknownComplexType. */
    method ParseComplexType(fieldType: string) returns (r: Result<DataType>)
      requires Valid() && fieldType !in types && SplitType(fieldType).Prefixed?
      modifies this`types
      decreases |fieldType|, 0
      ensures Valid()
      ensures r == Parse(fieldType)
      ensures r.Success? ==> fieldType in types && types[fieldType] == r.value
      ensures r.Success? ==> types.Keys == old(types).Keys + Chain(fieldType)
      ensures r.Failure? ==> types == old(types)
    {
      var Prefixed(word, rest) := SplitType(fieldType);
      ParsePrefixed(fieldType);
      ghost var oldKeys := types.Keys;
      if word != "ref" && word != "list" {
        return Failure(UnknownComplexType);
      }
      var inner := ParseType(rest);
      if inner.Failure? {
        return inner;
      }
      var t := if word == "ref"
        then PointerType(fieldType, inner.value.pointerWidth, 4, inner.value)
        else ListType(fieldType, -1, 8, inner.value);
      Store(fieldType, t);
      assert types.Keys == (oldKeys + Chain(rest)) + {fieldType};
      UnionSwap(oldKeys, Chain(rest), {fieldType});
      return Success(t);
    }

    /** The position of the reader relative to the data section. */
    function GetOffset(reader: Reader): (offset: int)
      reads reader
      ensures dataSectionOffset + offset == reader.pos
    {
      reader.pos - dataSectionOffset
    }

    /** Decodes one datum of type `t` at the reader. A list must be reached at a
        pointer; strings and lists are stored in the data entries under their
        offset, replacing what was there. */
    method ReadType(t: DataType, reader: Reader, isAtPointer: bool, construct: Construct<B>)
      returns (r: Result<Data<B>>)
      modifies this`entries, reader`pos
      ensures match Decode(t, reader.data, old(reader.pos), isAtPointer, dataSectionOffset, construct)
        case Success(d) =>
          && r == Success(d.data)
          && reader.pos == d.next
          && entries == (if d.registered then old(entries)[d.data.offset := d.data] else old(entries))
        case Failure(e) => r == Failure(e) && entries == old(entries)
      ensures t.ListType? && !isAtPointer ==> reader.pos == old(reader.pos)
    {
      var offset := GetOffset(reader);
      if t.ListType? {
        if !isAtPointer {
          return Failure(ListNotPointed);
        }
        var count :- reader.ReadInt32();
        offset :- reader.ReadInt32();
        var _ :- reader.Seek(dataSectionOffset + offset);
        var data :- Instantiate(ListData(count), t, offset, reader, construct);
        entries := entries[offset := data];
        return Success(data);
      }
      if t.PointerType? {
        if isAtPointer {
          offset :- reader.ReadInt32();
          var _ :- reader.Seek(dataSectionOffset + offset);
        }
        var data :- Instantiate(PointerData, t, offset, reader, construct);
        return Success(data);
      }
      if isAtPointer {
        offset :- reader.ReadInt32();
        var _ :- reader.Seek(dataSectionOffset + offset);
      }
      var cls := DataClassOf(t.name);
      if cls.None? {
        return Failure(UnknownValueTypeName);
      }
      var data :- Instantiate(cls.value, t, offset, reader, construct);
      if cls.value == StringData {
        entries := entries[offset := data];
      }
      return Success(data);
    }
  }
}
