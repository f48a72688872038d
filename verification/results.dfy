/** The outcomes of operations that can throw. */
module Results {
  datatype Error =
    | DomainError
    | LengthError
    | InvalidArgument
    | OutOfRange
    | SegmentTooLong
    | DataTooLong(usedBits: int, capacityBits: int)

  datatype Result<+T> = Ok(value: T) | Err(error: Error)

  datatype Option<+T> = None | Some(value: T)

  const INT_MAX := 0x7FFF_FFFF
}
