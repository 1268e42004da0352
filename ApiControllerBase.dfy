/** How a controller turns a service result into an HTTP response
    (Common/ApiControllerBase.cs). */
module Api {
  import opened Optional
  import opened Results

  /** The action results the controllers produce; `T` is the response body type. */
  datatype ActionResult<T> =
    | NoContent                                           // 204
    | Ok(value: T)                                        // 200
    | CreatedAtRoute(routeName: string, id: int, value: T) // 201
    | ObjectResult(statusCode: int, body: string)         // an error status with the description

  function StatusCode<T>(r: ActionResult<T>): int {
    match r
    case NoContent => 204
    case Ok(_) => 200
    case CreatedAtRoute(_, _, _) => 201
    case ObjectResult(code, _) => code
  }

  /** `MapErrorToActionResult`: a switch on the error code, falling back to 500. */
  function MapErrorToActionResult<T>(error: Error): (r: ActionResult<T>)
    ensures r.ObjectResult? && r.body == error.description
    ensures r.statusCode == 400 <==> error.code == "ValidationError"
    ensures r.statusCode == 404 <==> error.code == "NotFound"
    ensures r.statusCode == 409 <==> error.code == "Conflict"
    ensures r.statusCode == 401 <==> error.code == "Unauthorized"
    ensures r.statusCode == 500 <==> error.code !in {"ValidationError", "NotFound", "Conflict", "Unauthorized"}
  {
    match error.code
    case "ValidationError" => ObjectResult(400, error.description)
    case "NotFound" => ObjectResult(404, error.description)
    case "Conflict" => ObjectResult(409, error.description)
    case "Unauthorized" => ObjectResult(401, error.description)
    case _ => ObjectResult(500, error.description)
  }

  /** `FromResult(Result)`: success carries no body. */
  function FromResult<T>(result: Result<()>): (r: ActionResult<T>)
    ensures result.Success? ==> r == NoContent
    ensures result.Fail? ==> r == MapErrorToActionResult(result.error)
    ensures result.Fail? ==> r.ObjectResult? && r.body == result.error.description
    ensures result.Fail? ==> StatusCode(r) in {400, 401, 404, 409, 500}
  {
    if result.Success? then NoContent else MapErrorToActionResult(result.error)
  }

  /** `FromResult<T>(Result<T>)`: success carries the value with 200. */
  function FromValueResult<T>(result: Result<T>): (r: ActionResult<T>)
    ensures result.Success? ==> r == Ok(result.value) && StatusCode(r) == 200
    ensures result.Fail? ==> r == MapErrorToActionResult(result.error)
    ensures result.Fail? ==> r.ObjectResult? && r.body == result.error.description
    ensures result.Fail? ==> StatusCode(r) in {400, 401, 404, 409, 500}
  {
    if result.Success? then Ok(result.value) else MapErrorToActionResult(result.error)
  }

  /** `FromResult<T>(Result<T>, onSuccess)`: the caller decides the success response. */
  function FromResultWith<T, U>(result: Result<T>, onSuccess: T -> ActionResult<U>): (r: ActionResult<U>)
    ensures result.Success? ==> r == onSuccess(result.value)
    ensures result.Fail? ==> r == MapErrorToActionResult(result.error)
    ensures result.Fail? ==> r.ObjectResult? && r.body == result.error.description
    ensures result.Fail? ==> StatusCode(r) in {400, 401, 404, 409, 500}
  {
    if result.Success? then onSuccess(result.value) else MapErrorToActionResult(result.error)
  }

  /** Error.cs and the switch above agree: every factory lands on the status
      its name promises, and `Failure` and `None` fall through to 500. */
  lemma FactoriesLandOnIntendedStatus<T>(entityName: string, key: Option<string>, d: string)
    ensures StatusCode(MapErrorToActionResult<T>(Validation(d))) == 400
    ensures StatusCode(MapErrorToActionResult<T>(NotFound(entityName, key))) == 404
    ensures StatusCode(MapErrorToActionResult<T>(Conflict(d))) == 409
    ensures StatusCode(MapErrorToActionResult<T>(Unauthorized(d))) == 401
    ensures StatusCode(MapErrorToActionResult<T>(Failure(d))) == 500
    ensures StatusCode(MapErrorToActionResult<T>(NoError)) == 500
  {
  }
}
