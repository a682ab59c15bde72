/** The part of express-validator the request validators use: `notEmpty`,
    `isIn`, the list of field errors, and the final step that answers 400 with
    that list or hands the request on. A request body is a map from field
    names to the string values it holds; a missing field is `undefined`, which
    the validators read as the empty string. */
module ExpressValidator {
  import opened Common

  type Body = map<string, string>

  /** One entry of `errors.array()`: the field, the value found (none when
      the field is missing) and the message given with `withMessage`. */
  datatype FieldError = FieldError(path: string, value: Option<string>, msg: string)

  /** What a validator chain does with a request: call `next()`, or answer
      with a status and `{ errors }` without calling `next()`. */
  datatype Outcome = Next | Rejected(status: int, errors: seq<FieldError>)

  function Lookup(body: Body, path: string): (v: Option<string>)
    ensures v.Some? <==> path in body
    ensures v.Some? ==> v.value == body[path]
  {
    if path in body then Some(body[path]) else None
  }

  /** The value a validator tests: a missing field reads as "". */
  function Checked(body: Body, path: string): string {
    Lookup(body, path).UnwrapOr("")
  }

  /** `check(path).notEmpty()` passes: the field is there and not "". */
  predicate NotEmpty(body: Body, path: string) {
    path in body && body[path] != ""
  }

  /** `check(path).notEmpty().withMessage(msg)`: no error, or one. */
  function NotEmptyErrors(body: Body, path: string, msg: string): (errs: seq<FieldError>)
    ensures NotEmpty(body, path) ==> errs == []
    ensures !NotEmpty(body, path) ==> errs == [FieldError(path, Lookup(body, path), msg)]
  {
    if Checked(body, path) != "" then [] else [FieldError(path, Lookup(body, path), msg)]
  }

  /** `check(path).isIn(allowed).withMessage(msg)`: no error, or one. */
  function IsInErrors(body: Body, path: string, allowed: seq<string>, msg: string): (errs: seq<FieldError>)
    ensures Checked(body, path) in allowed ==> errs == []
    ensures Checked(body, path) !in allowed ==> errs == [FieldError(path, Lookup(body, path), msg)]
  {
    if Checked(body, path) in allowed then [] else [FieldError(path, Lookup(body, path), msg)]
  }

  /** The last middleware of a chain: with no errors it calls `next()`;
      otherwise it answers 400 with every error collected. */
  function Respond(errors: seq<FieldError>): (o: Outcome)
    ensures o.Next? <==> errors == []
    ensures o.Rejected? ==> o.status == 400 && o.errors == errors
  {
    if errors == [] then Next else Rejected(400, errors)
  }
}
