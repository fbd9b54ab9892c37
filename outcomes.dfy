/** Values shared by every layer of the model: optional values, the outcome
    of an HTTP handler (a body or a status code with a detail text) and the
    outcome of a call into a collaborator that may raise. */
module Outcomes {

  datatype Option<+T> = None | Some(value: T)

  /** What a FastAPI handler produces: a JSON body, or an `HTTPException`
      with its status code and detail. */
  datatype Http<+T> = Ok(body: T) | Fail(status: int, detail: string)

  /** The outcome of calling code outside the model (a database function,
      the network): it returns a value or raises with a message. */
  datatype Call<+T> = Returned(value: T) | Raised(message: string)
}
