/** Option and Result, and the HTTP error every service raises on failure. */
module Wrappers {

  datatype Option<+T> = None | Some(value: T)

  /** FastAPI's HTTPException: a status code and the detail message sent to the client. */
  datatype HttpException = HttpException(statusCode: int, detail: string)

  /** What a service function returns, or the HTTPException it raises. */
  datatype Result<+T> = Ok(value: T) | Err(error: HttpException)
}
