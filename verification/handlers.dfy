/**
 The shapes every route handler shares: validate, then either answer 401 with
 the error list or go to the bridge; and the status choice on list reads.
 */
module Handlers {
  import opened Options
  import opened Db
  import opened Bridge
  import opened Validation

  const OK: nat := 200
  const Unauthorized: nat := 401
  const NotFound: nat := 404

  /** The JSON body of a response. */
  datatype Body =
    | Errors(errors: seq<Validation.Error>)   // {message: errors}
    | Inserted(reply: InsertReply)            // {message, id?} from the bridge
    | Data(read: ReadReply)                   // {data} from the bridge
    | Message(text: string)                   // {message: text}

  datatype Response = Response(status: nat, body: Body)

  /** Everything a handler does: the driver calls it makes, in order, and the
      response it sends. */
  datatype Exchange = Exchange(calls: seq<Call>, response: Response)

  /** A validation failure: status 401 with the errors, and no driver call. */
  predicate Rejected(x: Exchange, errors: seq<Validation.Error>) {
    errors != [] && x == Exchange([], Response(Unauthorized, Errors(errors)))
  }

  /** The `.length` of the value the list handlers test. The bridge returns a
      `{data}` record, which has no `length` property: it reads `undefined`. */
  function LengthProperty(reply: ReadReply): Option<int> {
    None
  }

  /** `v > 0` in JavaScript: `undefined > 0` is false. */
  predicate GreaterThanZero(v: Option<int>) {
    v.Some? && v.value > 0
  }

  /** The status the list handlers choose, as written: `reply.length > 0`
      on the `{data}` record. */
  function ReadStatusAsWritten(reply: ReadReply): (s: nat)
    ensures s == NotFound
  {
    if GreaterThanZero(LengthProperty(reply)) then OK else NotFound
  }

  /** The status the list handlers are documented to choose: 200 when rows
      were found, 404 when the list is empty. */
  function ReadStatus(reply: ReadReply): (s: nat)
    ensures s == OK <==> reply.data != []
    ensures s == NotFound <==> reply.data == []
  {
    if |reply.data| > 0 then OK else NotFound
  }

  /** One row found: the documented status is 200, the status as written is
      404. */
  lemma ReadStatusCounterexample()
    ensures var found := ReadReply([Row(map["author_id" := Str("a")])]);
            ReadStatusAsWritten(found) == NotFound && ReadStatus(found) == OK
  {
  }

  /** The call a list handler makes: the bridge read of `query`, page 1. */
  function ListCall(ctx: Context, query: Query): Call {
    ReadCall(ctx, query, Some(1))
  }

  /** The rows the bridge returns for `query`. */
  function RowsOf(ctx: Context, driver: Driver, query: Query): seq<Row> {
    ctx.emptyOrRows(driver(ListCall(ctx, query)))
  }

  /** A list read: one bridge read, its `{data}` record sent unchanged, 200
      when rows were found and 404 with `{data: []}` otherwise. */
  predicate Listed(x: Exchange, ctx: Context, driver: Driver, query: Query) {
    var rows := RowsOf(ctx, driver, query);
    && x.calls == [ListCall(ctx, query)]
    && x.response.body == Data(ReadReply(rows))
    && (x.response.status == OK <==> rows != [])
    && (x.response.status == NotFound <==> rows == [])
  }

  /** A list handler with the status choice corrected. */
  function ListRead(ctx: Context, driver: Driver, query: Query): (x: Exchange)
    ensures Listed(x, ctx, driver, query)
  {
    var r := GetMultiple(ctx, driver, query, Some(1));
    Exchange([r.call], Response(ReadStatus(r.reply), Data(r.reply)))
  }

  /** A list handler as written: the same call and body, but the status is
      always 404 whatever rows come back. */
  function ListReadAsWritten(ctx: Context, driver: Driver, query: Query): (x: Exchange)
    ensures x.calls == [ListCall(ctx, query)]
    ensures x.response == Response(NotFound, Data(ReadReply(RowsOf(ctx, driver, query))))
  {
    var r := GetMultiple(ctx, driver, query, Some(1));
    Exchange([r.call], Response(ReadStatusAsWritten(r.reply), Data(r.reply)))
  }

  /** The as-written and corrected list handlers differ exactly when rows
      were found. */
  lemma ListReadDiffersOnlyWhenRowsFound(ctx: Context, driver: Driver, query: Query)
    ensures ListReadAsWritten(ctx, driver, query).calls == ListRead(ctx, driver, query).calls
    ensures ListReadAsWritten(ctx, driver, query).response.body == ListRead(ctx, driver, query).response.body
    ensures ListReadAsWritten(ctx, driver, query) == ListRead(ctx, driver, query)
            <==> RowsOf(ctx, driver, query) == []
  {
  }

  /** A list handler guarded by a non-empty path parameter. */
  function GuardedRead(ctx: Context, driver: Driver, fields: Fields, guard: Check, query: Query): (x: Exchange)
    requires guard.rule == NotEmpty
    ensures Field(fields, guard.param) == "" ==> Rejected(x, [ErrorOf(guard, fields, InParams)])
    ensures Field(fields, guard.param) != "" ==> Listed(x, ctx, driver, query)
  {
    var errors := Validate([guard], fields, InParams);
    assert errors != [] ==> errors == [ErrorOf(guard, fields, InParams)] by {
      if errors != [] {
        assert errors[0] in errors;
      }
    }
    if errors != [] then Exchange([], Response(Unauthorized, Errors(errors)))
    else ListRead(ctx, driver, query)
  }

  /** An accepted add: exactly the one insert `c`, status 200, and the
      bridge's reply to it. That reply carries the message "Added
      successfully" and `id` when the driver acknowledged the insert, and
      only the error message otherwise. */
  predicate InsertAnswered(x: Exchange, driver: Driver, c: Call, id: Scalar) {
    && x == Exchange([c], Response(OK, Inserted(Interpret(driver(c), c.params))))
    && (Acknowledged(driver(c)) ==> x.response.body == Inserted(InsertReply(AddedMessage, Some(id))))
    && (!Acknowledged(driver(c)) ==> x.response.body == Inserted(InsertReply(ErrorMessage, None)))
  }

  /** An add handler: validate, then insert `params` and send the bridge's
      reply with status 200. */
  function AddResource(checks: seq<Check>, fields: Fields, driver: Driver, query: Query, params: seq<Scalar>): (x: Exchange)
    ensures !AllPass(checks, fields) ==> Rejected(x, Validate(checks, fields, InBody))
    ensures AllPass(checks, fields) ==>
              && x.calls == [Call(query, params)]
              && x.response == Response(OK, Inserted(Interpret(driver(Call(query, params)), params)))
  {
    var errors := Validate(checks, fields, InBody);
    if errors != [] then Exchange([], Response(Unauthorized, Errors(errors)))
    else
      var w := Insert(driver, query, params);
      Exchange([w.call], Response(OK, Inserted(w.reply)))
  }
}
