/** The two stream objects the codec works on: a BinaryReader over an
    in-memory stream (fixed bytes, a mutable position) and a BinaryWriter
    (bytes appended in order). Characters are 16-bit little-endian code units. */
module Streams {
  import opened Errors
  import opened LittleEndian
  import opened Wire

  class Reader {
    const data: seq<Byte>
    var pos: nat

    constructor (data: seq<Byte>, pos: nat)
      ensures this.data == data && this.pos == pos
    {
      this.data := data;
      this.pos := pos;
    }

    /** The next `n` bytes; past the end of the stream the read fails. */
    method ReadBytes(n: nat) returns (r: Result<seq<Byte>>)
      modifies this`pos
      ensures old(pos) + n <= |data| ==> r == Success(data[old(pos)..old(pos) + n]) && pos == old(pos) + n
      ensures old(pos) + n > |data| ==> r == Failure(EndOfStream)
    {
      if pos + n > |data| {
        return Failure(EndOfStream);
      }
      r := Success(data[pos..pos + n]);
      pos := pos + n;
    }

    /** ReadInt32: four bytes, little-endian two's complement. */
    method ReadInt32() returns (r: Result<Int32>)
      modifies this`pos
      ensures old(pos) + 4 <= |data| ==> r == Success(Signed(data[old(pos)..old(pos) + 4])) && pos == old(pos) + 4
      ensures old(pos) + 4 > |data| ==> r == Failure(EndOfStream)
    {
      var bs :- ReadBytes(4);
      Pow256Values();
      return Success(Signed(bs));
    }

    /** ReadChar: one 16-bit little-endian code unit. */
    method ReadChar() returns (r: Result<Char16>)
      modifies this`pos
      ensures old(pos) + 2 <= |data| ==> r == Success(Unsigned(data[old(pos)..old(pos) + 2])) && pos == old(pos) + 2
      ensures old(pos) + 2 > |data| ==> r == Failure(EndOfStream)
    {
      var bs :- ReadBytes(2);
      Pow256Values();
      return Success(Unsigned(bs));
    }

    /** BaseStream.Seek(target, SeekOrigin.Begin): any position at or after the
        start, even past the end; a negative one fails. */
    method Seek(target: int) returns (r: Result<nat>)
      modifies this`pos
      ensures target >= 0 ==> r == Success(target) && pos == target
      ensures target < 0 ==> r == Failure(SeekBeforeBegin) && pos == old(pos)
    {
      if target < 0 {
        return Failure(SeekBeforeBegin);
      }
      pos := target;
      return Success(target);
    }
  }

  class Writer {
    var bytes: seq<Byte>

    constructor ()
      ensures bytes == []
    {
      bytes := [];
    }

    method WriteBytes(bs: seq<Byte>)
      modifies this
      ensures bytes == old(bytes) + bs
    {
      bytes := bytes + bs;
    }
  }
}
