/** Outcomes of operations that can fail. */
module Results {
  datatype Option<+T> = None | Some(value: T)

  datatype Error =
    | IntOverflow
    | UnexpectedEOF
    | InvalidLength
    | UnexpectedEndOfGroup
    | EndGroupOutsideGroup
    | IllegalTag
    | IllegalWireType
    | WrongWireType

  datatype Result<+T> = Ok(value: T) | Err(error: Error)
}
