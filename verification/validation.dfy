/**
 Request validation as the routes use it: a list of field checks, each either
 "not empty" or "at most n characters", run in order, every failure reported.
 */
module Validation {

  /** Request fields by name (the JSON body, or the path parameters). */
  type Fields = map<string, string>

  /** A field's value as the validator sees it: a missing field reads as the
      empty string. */
  function Field(fields: Fields, name: string): string {
    if name in fields then fields[name] else ""
  }

  /** Where the checked fields come from. */
  datatype Location = InBody | InParams

  datatype Rule = NotEmpty | MaxLength(max: nat)

  /** One `req.assert(param, msg).<rule>` line. */
  datatype Check = Check(param: string, rule: Rule, msg: string)

  /** One entry of the error list sent back with status 401. */
  datatype Error = Error(location: Location, param: string, msg: string, value: string)

  predicate Passes(c: Check, fields: Fields) {
    match c.rule
    case NotEmpty => Field(fields, c.param) != ""
    case MaxLength(max) => |Field(fields, c.param)| <= max
  }

  function ErrorOf(c: Check, fields: Fields, loc: Location): Error {
    Error(loc, c.param, c.msg, Field(fields, c.param))
  }

  predicate AllPass(checks: seq<Check>, fields: Fields) {
    forall i :: 0 <= i < |checks| ==> Passes(checks[i], fields)
  }

  /**
   The errors of running `checks` against `fields`: empty exactly when every
   check passes, and holding the error of each failing check and nothing else.
   */
  function Validate(checks: seq<Check>, fields: Fields, loc: Location): (errs: seq<Error>)
    ensures errs == [] <==> AllPass(checks, fields)
    ensures |errs| <= |checks|
    ensures forall e :: e in errs ==>
              exists i :: 0 <= i < |checks| && !Passes(checks[i], fields) && e == ErrorOf(checks[i], fields, loc)
    ensures forall i :: 0 <= i < |checks| && !Passes(checks[i], fields) ==> ErrorOf(checks[i], fields, loc) in errs
    decreases |checks|
  {
    if checks == [] then []
    else
      var head := if Passes(checks[0], fields) then [] else [ErrorOf(checks[0], fields, loc)];
      head + Validate(checks[1..], fields, loc)
  }
}
