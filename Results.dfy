/** The error taxonomy of the backend (Common/Results/Error.cs) and the tagged
    results its services return. Result.cs is not part of this model: the
    generic `Result<T>` and the non-generic `Result` (here `Result<()>`) are
    modelled as a tagged union. Exceptions that escape a service (an HTTP
    failure, a database update failure, an unimplemented stub) are modelled
    as `Completion.Threw`. */
module Results {
  import opened Optional

  /** A code that selects the HTTP status, and a description that becomes the body. */
  datatype Error = Error(code: string, description: string)

  /** `Error.None`. */
  const NoError: Error := Error("", "")

  const NotFoundSuffix: string := " was not found."

  /** `Error.NotFound(entityName, key)`; `key` is the already rendered key,
      `None` when the caller passes no key. */
  function NotFound(entityName: string, key: Option<string>): (e: Error)
    ensures e.code == "NotFound"
    ensures key.None? ==> |e.description| == |entityName| + |NotFoundSuffix|
    ensures key.Some? ==> |e.description| == |entityName| + 11 + |key.value| + 1 + |NotFoundSuffix|
    ensures e.description[..|entityName|] == entityName
    ensures e.description[|e.description| - |NotFoundSuffix|..] == NotFoundSuffix
    ensures key.Some? ==> e.description[|entityName|..|entityName| + 11] == " with key '"
    ensures key.Some? ==> e.description[|entityName| + 11..|entityName| + 11 + |key.value|] == key.value
    ensures key.Some? ==> e.description[|entityName| + 11 + |key.value|] == '\''
  {
    Error("NotFound",
      match key
      case None => entityName + NotFoundSuffix
      case Some(k) => entityName + " with key '" + k + "'" + NotFoundSuffix)
  }

  /** Two NotFound errors for the same entity are equal only when they were
      given the same key: the key can be read back from the description. */
  lemma {:induction false} NotFoundKeyDetermined(entityName: string, k1: Option<string>, k2: Option<string>)
    requires NotFound(entityName, k1) == NotFound(entityName, k2)
    ensures k1 == k2
  {
    var d := NotFound(entityName, k1).description;
    var n := |entityName|;
    if k1.Some? && k2.Some? {
      var a, b := k1.value, k2.value;
      assert |a| == |b|;
      assert d == entityName + " with key '" + a + "'" + NotFoundSuffix;
      assert d == entityName + " with key '" + b + "'" + NotFoundSuffix;
      assert d[n + 11..n + 11 + |a|] == a;
      assert d[n + 11..n + 11 + |b|] == b;
    }
  }

  /** `Error.Validation`: the description is passed through unchanged. */
  function Validation(description: string): (e: Error)
    ensures e.code == "ValidationError" && e.description == description
  {
    Error("ValidationError", description)
  }

  /** `Error.Conflict`. */
  function Conflict(description: string): (e: Error)
    ensures e.code == "Conflict" && e.description == description
  {
    Error("Conflict", description)
  }

  /** `Error.Failure`. */
  function Failure(description: string): (e: Error)
    ensures e.code == "Failure" && e.description == description
  {
    Error("Failure", description)
  }

  /** `Error.Unauthorized`. */
  function Unauthorized(description: string): (e: Error)
    ensures e.code == "Unauthorized" && e.description == description
  {
    Error("Unauthorized", description)
  }

  /** The five factories and `None` use six different codes, so no two kinds
      of error can be confused downstream. */
  lemma FactoryCodesDistinct(entityName: string, key: Option<string>, d: string)
    ensures NoError.code == "" && NoError.description == ""
    ensures |{NotFound(entityName, key).code, Validation(d).code, Conflict(d).code,
              Failure(d).code, Unauthorized(d).code, NoError.code}| == 6
  {
  }

  /** `Result<T>`; the non-generic `Result` is `Result<()>`. */
  datatype Result<T> = Success(value: T) | Fail(error: Error)

  /** Exceptions that escape a service call instead of being returned as a Result. */
  datatype Exception =
    | HttpRequestFailed(statusCode: int)   // EnsureSuccessStatusCode on a non-2xx response
    | DbUpdateFailed                       // SaveChanges rejected by a constraint of the store
    | NotImplemented                       // NotImplementedException

  datatype Completion<T> = Returned(value: T) | Threw(exception: Exception)
}
