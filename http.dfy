/** A route's answer: a status code with a body, or a status code with an error message. */
module Http {

  datatype Response<T> = Ok(code: int, body: T) | Err(code: int, message: string)
}
