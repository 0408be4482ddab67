/**
 * The parser's error enum (`DemoParserError`, first_pass/read_bits.rs).
 * Variants whose Rust payload is a formatted message carry the numbers
 * that message is formatted from instead of the text.
 */
module Errors {
  import opened Wrappers

  datatype DemoParserError =
    | ClassMapperNotFoundFirstPass
    | FieldNoDecoder
    | OutOfBitsError
    | OutOfBytesError
    | FailedByteRead(bytesLeft: nat, requested: nat)
    | UnknownPathOP
    | EntityNotFound
    | ClassNotFound
    | MalformedMessage
    | StringTableNotFound
    | Source1DemoError
    | DemoEndsEarly(expectedLen: nat, fileLen: nat)
    | UnknownFile
    | IncorrectMetaDataProp
    | UnknownPropName(name: string)
    | GameEventListNotSet
    | PropTypeNotFound(name: string)
    | GameEventUnknownId(id: string)
    | UnknownPawnPrefix(name: string)
    | UnknownEntityHandle(handle: string)
    | ClsIdOutOfBounds
    | UnknownGameEventVariant(name: string)
    | FileNotFound(path: string)
    | NoEvents
    | DecompressionFailure(reason: string)
    | NoSendTableMessage
    | UserIdNotFound
    | EventListFallbackNotFound(build: string)
    | VoiceDataWriteError(reason: string)
    | UnknownDemoCmd(cmd: int)
    | IllegalPathOp
    | VectorResizeFailure
    | ImpossibleCmd
    | UnkVoiceFormat
    | MalformedVoicePacket

  /**
   * How a computation of the source can stop short: an `Err` value it
   * returns, or a panic (an `unwrap` of a failure, an index out of range).
   */
  datatype Abort = Raised(error: DemoParserError) | Panic

  /** The `?` operator applied to a call returning `DemoParserError`. */
  function Lift<T>(r: Result<T, DemoParserError>): (l: Result<T, Abort>)
    ensures l.Success? <==> r.Success?
    ensures l.Success? ==> l.value == r.value
    ensures l.Failure? ==> l.error == Raised(r.error)
  {
    match r
    case Success(v) => Success(v)
    case Failure(e) => Failure(Raised(e))
  }

  /** `.unwrap()`: any failure panics. */
  function UnwrapOrPanic<T, E>(r: Result<T, E>): (l: Result<T, Abort>)
    ensures l.Success? <==> r.Success?
    ensures l.Success? ==> l.value == r.value
    ensures l.Failure? ==> l.error == Panic
  {
    match r
    case Success(v) => Success(v)
    case Failure(_) => Failure(Panic)
  }
}
