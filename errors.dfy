/** Failure values shared by the codec, the schema parser and the decoder.
    Each variant stands for one exception LibDat/Types/TypeFactory.cs throws. */
module Errors {

  datatype Option<+T> = None | Some(value: T)

  datatype Error =
    | EndOfStream              // a BinaryReader read past the end of the bytes
    | SeekBeforeBegin          // a seek to a negative absolute position
    | MissingStringTerminator  // the unit after a string's zero unit is not zero
    | NotImplemented           // Read<T>/Write<T> fall through to NotImplementedException
    | InvalidCast              // the boxed value handed to Write<T> is not a T
    | InvalidTypeDefinition    // the schema regex does not match (empty schema)
    | InvalidValueType         // an unprefixed schema is not all word characters
    | UnknownDataType          // a word that is not in the type table
    | UnknownComplexType       // a prefix other than "ref|" and "list|"
    | ListNotPointed           // a list decoded while not positioned at a pointer
    | UnknownValueTypeName     // a value descriptor whose name has no data class

  datatype Result<+T> = Success(value: T) | Failure(error: Error) {
    predicate IsFailure() { Failure? }

    function PropagateFailure<U>(): Result<U>
      requires Failure?
    {
      Failure(error)
    }

    function Extract(): T
      requires Success?
    {
      value
    }
  }
}
