/** Errors as handlers throw them, as they are recorded, as replays rebuild them, and as the API tells them. */
module IdempotencyErrors {
  import opened Optional

  datatype Category = Validation | NotFound | Unauthorized | Forbidden | Conflict | BusinessRule | Internal

  /** What reaches catchError. `Plain` is anything that is none of the known classes; it may carry a status of its own. */
  datatype Thrown =
    | Http(message: string, name: string, status: int)
    | Layer(message: string, name: string, code: Option<string>, category: Category)
    | Infrastructure(message: string, name: string, code: Option<string>, category: Category)
    | Plain(message: string, name: string, code: Option<string>, ownCategory: Option<Category>, ownStatus: Option<int>)

  /** The JSON that is stored; absent fields are left out of it. */
  datatype ErrorRecord = ErrorRecord(
    message: string, code: Option<string>, category: Option<Category>, status: Option<int>, name: Option<string>)

  /** What the client sees. */
  datatype Told = Success(value: string) | Failure(status: int, message: string, code: Option<string>)

  const TIMED_OUT: ErrorRecord := ErrorRecord("Request timed out", None, None, None, None)
  const GENERIC: string := "An unexpected error occurred. Please try again later."
  const UNKNOWN: string := "Internal server error"

  function CategoryStatus(c: Category): int {
    match c
    case Validation => 400
    case NotFound => 404
    case Unauthorized => 401
    case Forbidden => 403
    case Conflict => 409
    case BusinessRule => 422
    case Internal => 500
  }

  function CodeOf(e: Thrown): Option<string> {
    if e.Http? then None else e.code
  }

  function CategoryOf(e: Thrown): Option<Category> {
    match e
    case Http(_, _, _) => None
    case Plain(_, _, _, category, _) => category
    case _ => Some(e.category)
  }

  /** The status isDeterministicError works out: getStatus, then status, then the category's; 0 if there is none. */
  function StatusOf(e: Thrown): int {
    match e
    case Http(_, _, status) => status
    case Plain(_, _, _, category, status) =>
      if status.Some? && status.value != 0 then status.value
      else if category.Some? then CategoryStatus(category.value)
      else 0
    case _ => CategoryStatus(e.category)
  }

  /** 4xx errors are recorded and replayed, except 429 and 408; everything else is retryable. */
  predicate IsDeterministic(status: int) {
    400 <= status < 500 && status != 429 && status != 408
  }

  /** Which errors are recorded, by class. */
  lemma DeterministicIff(e: Thrown)
    ensures IsDeterministic(StatusOf(e)) <==>
      match e
      case Http(_, _, status) => 400 <= status <= 499 && status != 408 && status != 429
      case Layer(_, _, _, category) => category != Internal
      case Infrastructure(_, _, _, category) => category != Internal
      case Plain(_, _, _, category, status) =>
        if status.Some? && status.value != 0
        then 400 <= status.value <= 499 && status.value != 408 && status.value != 429
        else category.Some? && category.value != Internal
  {
  }

  /** Which status the API answers a domain or application exception with. */
  lemma ToldByCategory(message: string, name: string, code: Option<string>)
    ensures Tell(Layer(message, name, code, Validation)) == Failure(400, message, code)
    ensures Tell(Layer(message, name, code, Unauthorized)) == Failure(401, message, code)
    ensures Tell(Layer(message, name, code, Forbidden)) == Failure(403, message, code)
    ensures Tell(Layer(message, name, code, NotFound)) == Failure(404, message, code)
    ensures Tell(Layer(message, name, code, Conflict)) == Failure(409, message, code)
    ensures Tell(Layer(message, name, code, BusinessRule)) == Failure(422, message, code)
    ensures Tell(Layer(message, name, code, Internal)) == Failure(500, message, code)
  {
  }

  /** The payload of a recorded error; by then its status has been worked out. */
  function Recorded(e: Thrown): ErrorRecord {
    ErrorRecord(e.message, CodeOf(e), CategoryOf(e), Some(StatusOf(e)), Some(e.name))
  }

  /** What is kept of an error: everything a filter or a reader of the table could want, as far as the error has it. */
  lemma RecordedInFull(e: Thrown)
    ensures
      var r := Recorded(e);
      && r.message == e.message && r.name == Some(e.name)
      && (e.Http? ==> r.status == Some(e.status) && r.code.None? && r.category.None?)
      && (e.Layer? || e.Infrastructure? ==> r.code == e.code && r.category == Some(e.category))
      && (e.Plain? ==> r.code == e.code && r.category == e.ownCategory
                       && (e.ownStatus.Some? && e.ownStatus.value != 0 ==> r.status == e.ownStatus))
  {
  }

  /** reconstructError: an IdempotencyException made of message, code and category alone. */
  function Reconstructed(r: ErrorRecord): Thrown {
    Infrastructure(r.message, "IdempotencyException", r.code, if r.category.Some? then r.category.value else Internal)
  }

  /** The exception filters of the API; what no filter knows gets the framework's bare 500. */
  function Tell(e: Thrown): Told {
    match e
    case Http(message, _, status) => Failure(status, message, None)
    case Layer(message, _, code, category) => Failure(CategoryStatus(category), message, code)
    case Infrastructure(_, _, code, _) => Failure(500, GENERIC, code)
    case Plain(_, _, _, _, _) => Failure(500, UNKNOWN, None)
  }

  /** What nobody outside may see: an infrastructure error keeps only its code, and an unknown error not even that. */
  lemma ToldAs500(message: string, name: string, code: Option<string>, c: Category,
                  category: Option<Category>, status: Option<int>)
    ensures Tell(Infrastructure(message, name, code, c))
         == Failure(500, "An unexpected error occurred. Please try again later.", code)
    ensures Tell(Plain(message, name, code, category, status)) == Failure(500, "Internal server error", None)
  {
  }

  /** What of an error survives recording and reconstruction: message, code, and the category up to its default. */
  lemma RecordedThenReconstructed(e: Thrown)
    ensures
      var r := Reconstructed(Recorded(e));
      && r.message == e.message && CodeOf(r) == CodeOf(e)
      && CategoryOf(r) == Some(if CategoryOf(e).Some? then CategoryOf(e).value else Internal)
      && (r == e <==> e.Infrastructure? && e.name == "IdempotencyException")
  {
  }

  /**
   A replayed error is told with status 500, whatever was recorded; the claimant of a recorded error was
   told a 4xx, unless the error was of a kind that the API answers with 500 in any case.
   */
  lemma ReplayedStatusIff(e: Thrown)
    requires IsDeterministic(StatusOf(e))
    ensures Tell(Reconstructed(Recorded(e))) == Failure(500, GENERIC, CodeOf(e))
    ensures 400 <= Recorded(e).status.value < 500
    ensures Tell(e).status == Recorded(e).status.value <==> e.Http? || e.Layer?
    ensures Tell(Reconstructed(Recorded(e))).status == Tell(e).status <==> e.Infrastructure? || e.Plain?
  {
  }

  /** The message told survives only where it was the generic one to begin with. */
  lemma ReplayedTellingIff(e: Thrown)
    requires IsDeterministic(StatusOf(e))
    ensures Tell(Reconstructed(Recorded(e))) == Tell(e) <==> e.Infrastructure?
  {
    if e.Plain? {
      assert |GENERIC| != |UNKNOWN|;
    }
  }
}
