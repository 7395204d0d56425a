/** Failure-aware values shared by every service: the source throws
    NotFoundException, BadRequestException or DuplicateEmailException,
    which the model returns as an `Err` value instead. */
module Common {

  /** A Java reference that may be null. */
  datatype Option<+T> = None | Some(value: T)

  /** The three exception kinds the services throw. */
  datatype Error = NotFound | BadRequest | DuplicateEmail

  datatype Result<+T> = Ok(value: T) | Err(error: Error)
}
