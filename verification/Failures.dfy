/** Failures and their categories (architecturekit/error.go and
    architecturekit/database_failure.go). */
module Failures {
  import opened Basics

  /** The answer of the database that the client reports: a status, the code of
      the v2 API or an empty one, whether the description starts with "schema
      conflict", and the index of the precondition the details name. */
  datatype Answer = Answer(status: nat, code: string, isSchemaConflict: bool, violated: Option<int>)

  /** What the client reports when a request fails. */
  datatype ClientError = ClientError(outcomeUnknown: bool, incompatible: bool, answer: Option<Answer>)

  /** The categories of the kit, and what belongs to none of them. A conflict
      keeps the answer it wraps. */
  datatype Failure =
    | Conflict(answer: Option<Answer>)
    | Transient
    | Permanent
    | Unverified
    | OutcomeUnknown
    | ContextEnded
    | NotARevision
    | Domain
    | Other

  /** A failure that promises that a write stored nothing. */
  predicate StoredNothing(failure: Failure) {
    failure.Conflict? || failure.Transient? || failure.Permanent?
  }

  const CODE_PRECONDITION_VIOLATED := "precondition-violated"

  const TRANSIENT_CODES: seq<string> := [
    "server-shutting-down", "store-read-only", "indexes-rebuilding", "restore-in-progress",
    "disk-full", "store-failed", "license-invalid", "capacity-exceeded"]

  /** The answer says that a precondition did not hold: by its code, or without one by
      its status. */
  predicate IsConflict(answer: Answer) {
    || answer.code == CODE_PRECONDITION_VIOLATED
    || (answer.code == "" && answer.status == 409 && !answer.isSchemaConflict)
  }

  /** Nothing is known to be wrong with the request itself: no answer, an answer with no
      status or with one of success, or a failure that may pass. */
  predicate MayPass(answer: Answer) {
    || answer.code in TRANSIENT_CODES
    || (answer.code == "" && (answer.status in {0, 200, 408, 429} || answer.status >= 500))
  }

  function DatabaseFailure(err: ClientError): (failure: Failure)
    ensures StoredNothing(failure)
    ensures failure.Conflict? <==> !err.incompatible && err.answer.Some? && IsConflict(err.answer.value)
    ensures failure.Conflict? ==> failure.answer == err.answer
    ensures failure.Transient? <==> !err.incompatible && (err.answer.None? || MayPass(err.answer.value))
  {
    if err.incompatible then Permanent
    else
      match err.answer
      case None => Transient
      case Some(answer) =>
        if answer.code != "" then
          if answer.code == CODE_PRECONDITION_VIOLATED then Conflict(err.answer)
          else if answer.code in TRANSIENT_CODES then Transient
          else Permanent
        else if answer.status == 0 || answer.status == 200 || answer.status == 408 || answer.status == 429 ||
          answer.status >= 500
        then Transient
        else if answer.status == 409 then
          if answer.isSchemaConflict then Permanent else Conflict(err.answer)
        else Permanent
  }

  /** A write that failed has a category exactly when the client is certain that
      it stored nothing. */
  function WriteFailure(err: ClientError): (failure: Failure)
    ensures StoredNothing(failure) <==> !err.outcomeUnknown
    ensures failure.OutcomeUnknown? <==> err.outcomeUnknown
  {
    if err.outcomeUnknown then OutcomeUnknown else DatabaseFailure(err)
  }

  /** The index of the precondition that the answer behind a failure names. */
  function NamedIndex(failure: Failure): Option<int> {
    if failure.Conflict? && failure.answer.Some? && failure.answer.value.code == CODE_PRECONDITION_VIOLATED
    then failure.answer.value.violated
    else None
  }
}
