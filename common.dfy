/** Shared vocabulary of the API: optional values, bytes, HTTP status codes,
    field errors and the tagged reply every service returns. */
module Common {

  datatype Option<+T> = None | Some(value: T)

  newtype Byte = x: int | 0 <= x < 256

  /** The status codes the services answer with. */
  const OK_200: nat := 200
  const CREATED_201: nat := 201
  const NO_CONTENT_204: nat := 204
  const BAD_REQUEST_400: nat := 400
  const UNAUTHORIZED_401: nat := 401
  const FORBIDDEN_403: nat := 403
  const NOT_FOUND_404: nat := 404

  /** One entry of an `errorsMessages` list. */
  datatype FieldError = FieldError(message: string, field: string)

  /** What a service hands back to its router: a bare status, a status with
      an `{errorsMessages}` body, a status with a data body, or an exception
      that escapes the service (a driver error or a TypeError). */
  datatype Reply<+V> =
    | Bare(code: nat)
    | Errors(code: nat, errorsMessages: seq<FieldError>)
    | Data(code: nat, value: V)
    | Unhandled

  /** A value of a JSON request body as the code sees it: a missing key,
      `null`, a number, a string, an object with its keys and values, or
      anything else (a boolean or an array). */
  datatype JsValue = Absent | Null | Num | Str(s: string) | Obj(entries: map<string, JsValue>) | OtherValue

  /** The fields of an error list, in order. */
  function Fields(errs: seq<FieldError>): (fs: seq<string>)
    ensures |fs| == |errs|
    ensures forall i :: 0 <= i < |errs| ==> fs[i] == errs[i].field
  {
    if errs == [] then [] else [errs[0].field] + Fields(errs[1..])
  }
}
