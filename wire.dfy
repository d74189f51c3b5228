/** What the primitive readers and writers of LibDat/Types/TypeFactory.cs put on
    the wire, as pure functions of the bytes: the fixed-width kinds in
    little-endian two's complement, and strings as 16-bit code units followed by
    four zero bytes. */
module Wire {
  import opened Errors
  import opened LittleEndian

  type Char16 = c: int | 0 <= c < 0x1_0000
  type Int16 = x: int | -0x8000 <= x < 0x8000
  type Int32 = x: int | -0x8000_0000 <= x < 0x8000_0000
  type UInt32 = x: int | 0 <= x < 0x1_0000_0000
  type Int64 = x: int | -0x8000_0000_0000_0000 <= x < 0x8000_0000_0000_0000
  type UInt64 = x: int | 0 <= x < 0x1_0000_0000_0000_0000

  /** The CLR type argument of Read<T> and Write<T>; `OtherT` stands for every
      type that has no entry in the codec tables. */
  datatype ClrType = BoolT | ByteT | ShortT | IntT | UIntT | LongT | ULongT | StringT | OtherT(name: string)

  /** The keys of ReadFuncs and of WriteFuncs (both tables have the same eight). */
  const Registered: set<ClrType> := {BoolT, ByteT, ShortT, IntT, UIntT, LongT, ULongT, StringT}

  /** A value of one of the registered kinds. */
  datatype Value =
    | BoolV(b: bool)
    | ByteV(u8: Byte)
    | ShortV(i16: Int16)
    | IntV(i32: Int32)
    | UIntV(u32: UInt32)
    | LongV(i64: Int64)
    | ULongV(u64: UInt64)
    | StringV(chars: seq<Char16>)

  function TypeOf(v: Value): (t: ClrType)
    ensures t in Registered
  {
    match v
    case BoolV(_) => BoolT
    case ByteV(_) => ByteT
    case ShortV(_) => ShortT
    case IntV(_) => IntT
    case UIntV(_) => UIntT
    case LongV(_) => LongT
    case ULongV(_) => ULongT
    case StringV(_) => StringT
  }

  predicate IsFixed(t: ClrType) {
    t in Registered && t != StringT
  }

  /** Bytes that BinaryReader consumes for a fixed-width kind. */
  function Width(t: ClrType): nat
  {
    match t
    case BoolT => 1
    case ByteT => 1
    case ShortT => 2
    case IntT => 4
    case UIntT => 4
    case LongT => 8
    case ULongT => 8
    case _ => 0
  }

  /** ReadBoolean, ReadByte, ReadInt16, ReadInt32, ReadUInt32, ReadInt64, ReadUInt64. */
  function FromBytes(t: ClrType, bs: seq<Byte>): (v: Value)
    requires IsFixed(t) && |bs| == Width(t)
    ensures TypeOf(v) == t
  {
    Pow256Values();
    match t
    case BoolT => BoolV(bs[0] != 0)
    case ByteT => ByteV(bs[0])
    case ShortT => ShortV(Signed(bs))
    case IntT => IntV(Signed(bs))
    case UIntT => UIntV(Unsigned(bs))
    case LongT => LongV(Signed(bs))
    case ULongT => ULongV(Unsigned(bs))
  }

  /** One 16-bit code unit as BinaryWriter.Write(char) emits it. */
  function CharBytes(c: Char16): (bs: seq<Byte>)
    ensures |bs| == 2 && Unsigned(bs) == c
  {
    Pow256Values();
    UnsignedBytes(c, 2)
  }

  function EncodeChars(s: seq<Char16>): (bs: seq<Byte>)
    ensures |bs| == 2 * |s|
  {
    if s == [] then [] else CharBytes(s[0]) + EncodeChars(s[1..])
  }

  /** The string writer: every code unit, then Write(0), an int zero (four zero bytes). */
  function EncodeString(s: seq<Char16>): (bs: seq<Byte>)
    ensures |bs| == 2 * |s| + 4
  {
    EncodeChars(s) + [0, 0, 0, 0]
  }

  /** The bytes the writer of WriteFuncs emits for `v`. */
  function Encode(v: Value): (bs: seq<Byte>)
    ensures !v.StringV? ==> |bs| == Width(TypeOf(v))
  {
    Pow256Values();
    match v
    case BoolV(b) => [if b then 1 else 0]
    case ByteV(x) => [x]
    case ShortV(x) => SignedBytes(x, 2)
    case IntV(x) => SignedBytes(x, 4)
    case UIntV(x) => UnsignedBytes(x, 4)
    case LongV(x) => SignedBytes(x, 8)
    case ULongV(x) => UnsignedBytes(x, 8)
    case StringV(s) => EncodeString(s)
  }

  /** The int zero that ends a string is four zero bytes. */
  lemma IntZeroBytes()
    ensures Encode(IntV(0)) == [0, 0, 0, 0]
  {
    Pow256Values();
    ZeroBytes(4);
  }

  predicate NoZero(s: seq<Char16>) {
    forall i | 0 <= i < |s| :: s[i] != 0
  }

  /** The string reader of ReadFuncs starting at `pos`: code units up to a zero
      unit, then one more unit that must be zero. On success, the decoded text
      has no zero unit and the position after it is past its encoding
      (StringAtDecodes: the bytes consumed are exactly that encoding). */
  function StringAt(data: seq<Byte>, pos: nat): (r: Result<(seq<Char16>, nat)>)
    decreases |data| - pos
    ensures r.Success? ==> NoZero(r.value.0)
    ensures r.Success? ==> r.value.1 == pos + |EncodeString(r.value.0)| <= |data|
  {
    if pos + 2 > |data| then Failure(EndOfStream)
    else
      var c := Unsigned(data[pos..pos + 2]);
      if c != 0 then
        var tail :- StringAt(data, pos + 2);
        Success(([c] + tail.0, tail.1))
      else if pos + 4 > |data| then Failure(EndOfStream)
      else if Unsigned(data[pos + 2..pos + 4]) != 0 then Failure(MissingStringTerminator)
      else Success(([], pos + 4))
  }

  /** The bytes the string reader consumes are exactly the encoding of the text
      it returns. */
  lemma {:induction false} StringAtDecodes(data: seq<Byte>, pos: nat)
    requires StringAt(data, pos).Success?
    ensures var read := StringAt(data, pos).value; data[pos..read.1] == EncodeString(read.0)
    decreases |data| - pos
  {
    var read := StringAt(data, pos).value;
    var c := Unsigned(data[pos..pos + 2]);
    Pow256Values();
    if c != 0 {
      StringAtDecodes(data, pos + 2);
      UnsignedBytesOfUnsigned(data[pos..pos + 2]);
      assert data[pos..read.1] == data[pos..pos + 2] + data[pos + 2..read.1];
      assert read.0 == [c] + StringAt(data, pos + 2).value.0;
    } else {
      UnsignedZero(data[pos..pos + 2]);
      UnsignedZero(data[pos + 2..pos + 4]);
      assert data[pos..pos + 4] == [0, 0, 0, 0];
    }
  }

  /** Read<T> for a registered kind, as a function of the bytes and the start
      position: the value read and the position after it. A successful read gives
      a value of the requested kind, and, except for bool (any nonzero byte reads
      as true), the bytes consumed are exactly what the writer emits for it. */
  function ReadAt(t: ClrType, data: seq<Byte>, pos: nat): (r: Result<(Value, nat)>)
    ensures t !in Registered ==> r == Failure(NotImplemented)
    ensures r.Success? ==> TypeOf(r.value.0) == t && pos < r.value.1 <= |data|
    ensures r.Success? && t != BoolT ==> data[pos..r.value.1] == Encode(r.value.0)
  {
    if t !in Registered then Failure(NotImplemented)
    else if t == StringT then
      var read :- StringAt(data, pos);
      StringAtDecodes(data, pos);
      Success((StringV(read.0), read.1))
    else if pos + Width(t) > |data| then Failure(EndOfStream)
    else
      var bs := data[pos..pos + Width(t)];
      BytesRoundTrip(t, bs);
      Success((FromBytes(t, bs), pos + Width(t)))
  }

  /** Except for bool, the writer emits exactly the bytes a fixed-width value
      was read from. */
  lemma BytesRoundTrip(t: ClrType, bs: seq<Byte>)
    requires IsFixed(t) && |bs| == Width(t)
    ensures t != BoolT ==> Encode(FromBytes(t, bs)) == bs
  {
    UnsignedBytesOfUnsigned(bs);
    SignedBytesOfSigned(bs);
  }

  /** A fixed-width value reads back as itself from the bytes the writer emits
      for it. */
  lemma ValueRoundTrip(v: Value)
    requires !v.StringV?
    ensures FromBytes(TypeOf(v), Encode(v)) == v
  {
    Pow256Values();
  }

  /** Splitting a window of the bytes that holds `a + b` into the window of `a`
      and the window of `b`. */
  lemma SliceSplit(data: seq<Byte>, p: nat, a: seq<Byte>, b: seq<Byte>)
    requires p + |a| + |b| <= |data| && data[p..p + |a| + |b|] == a + b
    ensures data[p..p + |a|] == a && data[p + |a|..p + |a| + |b|] == b
  {
    var w := data[p..p + |a| + |b|];
    assert data[p..p + |a|] == w[..|a|];
    assert data[p + |a|..p + |a| + |b|] == w[|a|..];
    assert (a + b)[..|a|] == a && (a + b)[|a|..] == b;
  }

  /** Appending one unit to the text appends its two bytes to the encoding. */
  lemma {:induction false} EncodeCharsAppend(s: seq<Char16>, c: Char16)
    ensures EncodeChars(s + [c]) == EncodeChars(s) + CharBytes(c)
  {
    if s != [] {
      assert (s + [c])[1..] == s[1..] + [c];
      EncodeCharsAppend(s[1..], c);
    }
  }

  /** Reading an encoded string that has no zero unit gives it back, and stops
      right after its four terminating zero bytes. */
  lemma {:induction false} StringAtEncoded(s: seq<Char16>, data: seq<Byte>, pos: nat)
    requires NoZero(s)
    requires pos + |EncodeString(s)| <= |data|
    requires data[pos..pos + |EncodeString(s)|] == EncodeString(s)
    ensures StringAt(data, pos) == Success((s, pos + |EncodeString(s)|))
  {
    if s == [] {
      assert EncodeString(s) == [0, 0] + [0, 0];
      SliceSplit(data, pos, [0, 0], [0, 0]);
    } else {
      assert EncodeString(s) == CharBytes(s[0]) + EncodeString(s[1..]);
      SliceSplit(data, pos, CharBytes(s[0]), EncodeString(s[1..]));
      StringAtEncoded(s[1..], data, pos + 2);
      assert [s[0]] + s[1..] == s;
    }
  }

  /** A zero unit followed by a nonzero unit, after any text without zero
      units, makes the string reader fail. */
  lemma {:induction false} StringAtBrokenTerminator(s: seq<Char16>, data: seq<Byte>, pos: nat, unit: Char16)
    requires NoZero(s) && unit != 0
    requires pos + |EncodeChars(s)| + 4 <= |data|
    requires data[pos..pos + |EncodeChars(s)| + 4] == EncodeChars(s) + [0, 0] + CharBytes(unit)
    ensures StringAt(data, pos) == Failure(MissingStringTerminator)
  {
    if s == [] {
      assert EncodeChars(s) + [0, 0] + CharBytes(unit) == [0, 0] + CharBytes(unit);
      SliceSplit(data, pos, [0, 0], CharBytes(unit));
    } else {
      var tail := EncodeChars(s[1..]) + [0, 0] + CharBytes(unit);
      assert EncodeChars(s) + [0, 0] + CharBytes(unit) == CharBytes(s[0]) + tail;
      SliceSplit(data, pos, CharBytes(s[0]), tail);
      StringAtBrokenTerminator(s[1..], data, pos + 2, unit);
    }
  }

  /** Every value the writer emits reads back as itself (strings provided they
      hold no zero unit), and the read stops right after its bytes. */
  lemma ReadAtEncoded(v: Value, data: seq<Byte>, pos: nat)
    requires v.StringV? ==> NoZero(v.chars)
    requires pos + |Encode(v)| <= |data|
    requires data[pos..pos + |Encode(v)|] == Encode(v)
    ensures ReadAt(TypeOf(v), data, pos) == Success((v, pos + |Encode(v)|))
  {
    if v.StringV? {
      StringAtEncoded(v.chars, data, pos);
    } else {
      ValueRoundTrip(v);
    }
  }
}
