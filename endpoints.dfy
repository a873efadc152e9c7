/**
 * What a server endpoint answers: a JSON body with status 200, or an error
 * JSON `{ error }` with its HTTP status. Some 502 answers also carry
 * `raw`, the model's text that could not be used.
 */
module Endpoints {
  import opened Wrappers

  datatype Response<T> = Ok(body: T) | Error(status: nat, message: string, raw: Option<string> := None)
}
