/** The failures the service can end a call with.  Each constructor names one
    `raise` of the source (or an exception a library raises that the source
    does not catch); the Russian detail strings are not modelled, only which
    failure it is. */
module Errors {

  datatype Error =
    // MisdirectedRequestError(NOT_ENOUGH_INFO): a selector with every field None
    | NotEnoughInfo
    // "permission ... does not exist": the permission selector matched no row
    | PermissionMissing
    // "a permission named ... already exists"
    | PermissionNameTaken
    // "user ... does not exist": the user selector matched no live row
    | UserMissing
    // "user ... already has permission ..."
    | AlreadyHolds
    // "user ... does not have permission ..."
    | DoesNotHold
    // sqlalchemy MultipleResultsFound from `.one()`: never caught by the source
    | MultipleRows
    // a value longer than its String(n) column: DataError, never caught
    | DataTooLong
    // a unique or primary-key constraint rejected the commit: IntegrityError, never caught
    | UniqueViolation
    // HTTP 409 "login taken"
    | LoginTaken
    // HTTP 401 "wrong login or password"
    | BadCredentials
    // HTTP 401 "account deleted"
    | AccountDeleted
    // HTTP 401 "wrong password"
    | WrongPassword
    // HTTP 401 with detail "<type> token banned"
    | TokenBanned(tokenType: string)
    // HTTP 403 "not enough rights"
    | NotEnoughRights
    // typer.Exit from the admin command line
    | Exit
    // `ResponseError(detail)` called with one argument: the constructor takes a
    // status code and a detail, so Python raises TypeError instead of `intended`
    | TypeErrorOnRaise(intended: Error)
  {
    /** The HTTP status the application answers with.  The one handler for
        `ResponseError` (src/main.py) answers 421 whatever status code the
        raise named, so the auth handlers' 409 and 401 failures all arrive as
        421; `HTTPException`s keep their own code; `MisdirectedRequestError`
        has no handler, so it and every other uncaught exception end as 500. */
    function Status(): (code: int)
      ensures code in {401, 403, 421, 500}
      ensures code == 421 <==> RaisedAsResponseError()
    {
      match this
      case LoginTaken | BadCredentials | AccountDeleted | WrongPassword => 421
      case TokenBanned(_) => 401
      case NotEnoughRights => 403
      case _ => 500
    }

    /** The failures the auth handlers raise as `ResponseError(code, detail)`. */
    predicate RaisedAsResponseError()
    {
      LoginTaken? || BadCredentials? || AccountDeleted? || WrongPassword?
    }

    /** The status code each `ResponseError` raise names. */
    function NamedStatus(): (code: int)
      requires RaisedAsResponseError()
    {
      if LoginTaken? then 409 else 401
    }

    /** The status the handlers evidently mean: a `ResponseError` answers with
        the code its raise names; every other failure as `Status`. */
    function IntendedStatus(): (code: int)
      ensures RaisedAsResponseError() ==> code == NamedStatus() && code != 421
      ensures !RaisedAsResponseError() ==> code == Status()
    {
      if RaisedAsResponseError() then NamedStatus() else Status()
    }
  }

  /** The detail string of a banned-token rejection. */
  function BannedDetail(tokenType: string): (detail: string)
    ensures |detail| == |tokenType| + 13
    ensures detail[..|tokenType|] == tokenType
    ensures detail[|tokenType|..] == " token banned"
  {
    tokenType + " token banned"
  }

  /** As written, every failure the auth handlers raise with a status code of
      their own reaches the client as 421 instead. */
  lemma ResponseErrorCodeIgnored(e: Error)
    requires e.RaisedAsResponseError()
    ensures e.Status() == 421 && e.Status() != e.NamedStatus()
  {
  }
}
