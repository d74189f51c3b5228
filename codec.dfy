/** The codec tables of LibDat/Types/TypeFactory.cs: Read<T> and Write<T>
    dispatch on the CLR type through ReadFuncs and WriteFuncs, and the string
    entries of both tables loop over code units. */
module Codec {
  import opened Errors
  import opened LittleEndian
  import opened Wire
  import opened Streams

  /** A string read result with `prefix` put in front of the text. */
  ghost function Prepend(prefix: seq<Char16>, r: Result<(seq<Char16>, nat)>): Result<(seq<Char16>, nat)>
  {
    match r
    case Success(read) => Success((prefix + read.0, read.1))
    case Failure(e) => Failure(e)
  }

  lemma PrependEmpty(r: Result<(seq<Char16>, nat)>)
    ensures Prepend([], r) == r
  {
    if r.Success? {
      assert [] + r.value.0 == r.value.0;
    }
  }

  lemma PrependPrepend(a: seq<Char16>, b: seq<Char16>, r: Result<(seq<Char16>, nat)>)
    ensures Prepend(a, Prepend(b, r)) == Prepend(a + b, r)
  {
    if r.Success? {
      assert a + (b + r.value.0) == (a + b) + r.value.0;
    }
  }

  /** A zero unit at `p` ends the text: the next unit decides between the
      empty text and a missing terminator. */
  lemma StringAtZero(data: seq<Byte>, p: nat)
    requires p + 2 <= |data| && Unsigned(data[p..p + 2]) == 0
    ensures p + 4 > |data| ==> StringAt(data, p) == Failure(EndOfStream)
    ensures p + 4 <= |data| && Unsigned(data[p + 2..p + 4]) != 0 ==>
      StringAt(data, p) == Failure(MissingStringTerminator)
    ensures p + 4 <= |data| && Unsigned(data[p + 2..p + 4]) == 0 ==> StringAt(data, p) == Success(([], p + 4))
  {
  }

  /** The string reader of ReadFuncs: append code units until a zero unit, then
      read one more unit, which must be zero. */
  method ReadString(reader: Reader) returns (r: Result<seq<Char16>>)
    modifies reader`pos
    ensures match StringAt(reader.data, old(reader.pos))
      case Success(read) => r == Success(read.0) && reader.pos == read.1
      case Failure(e) => r == Failure(e)
  {
    ghost var data, start := reader.data, reader.pos;
    var sb: seq<Char16> := [];
    var ch :- reader.ReadChar();
    PrependEmpty(StringAt(data, start));
    while ch != 0
      invariant start + 2 <= reader.pos <= |data|
      invariant ch == Unsigned(data[reader.pos - 2..reader.pos])
      invariant StringAt(data, start) == Prepend(sb, StringAt(data, reader.pos - 2))
      decreases |data| - reader.pos
    {
      assert StringAt(data, reader.pos - 2) == Prepend([ch], StringAt(data, reader.pos));
      PrependPrepend(sb, [ch], StringAt(data, reader.pos));
      sb := sb + [ch];
      ch :- reader.ReadChar();
    }
    StringAtZero(data, reader.pos - 2);
    ch :- reader.ReadChar();
    if ch != 0 {
      return Failure(MissingStringTerminator);
    }
    assert sb + [] == sb;
    return Success(sb);
  }

  /** Read<T>: a kind without a ReadFuncs entry fails with NotImplemented;
      otherwise the entry's reader runs at the current position. */
  method Read(reader: Reader, t: ClrType) returns (r: Result<Value>)
    modifies reader`pos
    ensures match ReadAt(t, reader.data, old(reader.pos))
      case Success(read) => r == Success(read.0) && reader.pos == read.1
      case Failure(e) => r == Failure(e)
  {
    if t !in Registered {
      return Failure(NotImplemented);
    }
    if t == StringT {
      var s :- ReadString(reader);
      return Success(StringV(s));
    }
    var bs :- reader.ReadBytes(Width(t));
    return Success(FromBytes(t, bs));
  }

  /** The string writer of WriteFuncs: every code unit, then the int 0. */
  method WriteString(writer: Writer, s: seq<Char16>)
    modifies writer
    ensures writer.bytes == old(writer.bytes) + EncodeString(s)
  {
    var i := 0;
    while i < |s|
      invariant 0 <= i <= |s|
      invariant writer.bytes == old(writer.bytes) + EncodeChars(s[..i])
    {
      EncodeCharsAppend(s[..i], s[i]);
      assert s[..i + 1] == s[..i] + [s[i]];
      writer.WriteBytes(CharBytes(s[i]));
      i := i + 1;
    }
    assert s[..i] == s;
    IntZeroBytes();
    writer.WriteBytes(Encode(IntV(0)));
  }

  /** The bytes appended after `a` sit right after it. */
  lemma AppendedWindow(a: seq<Byte>, b: seq<Byte>)
    ensures (a + b)[|a|..|a| + |b|] == b
  {
  }

  /** Write<T> as evidently intended: a kind with a WriteFuncs entry writes the
      bytes of `obj` and returns normally; `obj` of another kind is an invalid
      cast and an unregistered kind is not implemented, both writing nothing.
      What it writes reads back as `obj` (a string provided it has no zero unit). */
  method WriteValue(writer: Writer, t: ClrType, obj: Value) returns (r: Option<Error>)
    modifies writer
    ensures r == (if t !in Registered then Some(NotImplemented) else if TypeOf(obj) != t then Some(InvalidCast) else None)
    ensures writer.bytes == old(writer.bytes) + (if r.None? then Encode(obj) else [])
    ensures r.None? && (obj.StringV? ==> NoZero(obj.chars)) ==>
      ReadAt(t, writer.bytes, |old(writer.bytes)|) == Success((obj, |writer.bytes|))
  {
    if t !in Registered {
      return Some(NotImplemented);
    }
    if TypeOf(obj) != t {
      return Some(InvalidCast);
    }
    ghost var before := writer.bytes;
    if t == StringT {
      WriteString(writer, obj.chars);
    } else {
      writer.WriteBytes(Encode(obj));
    }
    assert writer.bytes == before + Encode(obj);
    AppendedWindow(before, Encode(obj));
    if obj.StringV? ==> NoZero(obj.chars) {
      ReadAtEncoded(obj, writer.bytes, |before|);
    }
    return None;
  }

  /** The exception Write<T> ends with as written: InvalidCast when `obj` is not
      a T of a registered kind, NotImplemented in every other case. */
  function WriteOutcome(t: ClrType, obj: Value): Error
  {
    if t in Registered && TypeOf(obj) != t then InvalidCast else NotImplemented
  }

  /** Write<T> as written: the entry's writer runs, and since no return follows
      it, NotImplementedException is thrown for every T, after the bytes of a
      registered kind have been written. */
  method Write(writer: Writer, t: ClrType, obj: Value) returns (e: Error)
    modifies writer
    ensures e == WriteOutcome(t, obj)
    ensures e == InvalidCast <==> t in Registered && TypeOf(obj) != t
    ensures e != InvalidCast ==> e == NotImplemented
    ensures writer.bytes == old(writer.bytes) + (if TypeOf(obj) == t then Encode(obj) else [])
  {
    var r := WriteValue(writer, t, obj);
    if r == Some(InvalidCast) {
      return InvalidCast;
    }
    return NotImplemented;
  }

  /** A value of a registered kind handed to Write<T> with its own kind is
      written, and yet the call still ends in NotImplemented. */
  lemma WriteAlwaysThrows(obj: Value)
    ensures WriteOutcome(TypeOf(obj), obj) == NotImplemented
  {
  }
}
