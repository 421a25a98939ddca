/** The data-access bridge: the one place that talks to the driver. */
module Bridge {
  import opened Options
  import opened Db

  const AddedMessage := "Added successfully"
  const ErrorMessage := "Error in insert query"

  /** The `{data}` record a read returns. */
  datatype ReadReply = ReadReply(data: seq<Row>)

  /** The `{message, id?}` record an insert returns. */
  datatype InsertReply = InsertReply(message: string, id: Option<Scalar>)

  /** A bridge operation: the call it hands to the driver and what it returns. */
  datatype Read = Read(call: Call, reply: ReadReply)
  datatype Write = Write(call: Call, reply: InsertReply)

  /** The `page = 1` default of `getMultiple`. */
  function PageOrDefault(page: Option<int>): int {
    page.GetOr(1)
  }

  /** The call `getMultiple` makes: the query as given, and the offset and
      page size as the only bound parameters. */
  function ReadCall(ctx: Context, query: Query, page: Option<int>): (c: Call)
    ensures c.query == query
    ensures |c.params| == 2
    ensures c.params[0] == Num(ctx.getOffset(PageOrDefault(page), ctx.listPerPage))
    ensures c.params[1] == Num(ctx.listPerPage)
  {
    var p := PageOrDefault(page);
    Call(query, [Num(ctx.getOffset(p, ctx.listPerPage)), Num(ctx.listPerPage)])
  }

  /** `getMultiple`: run the query and wrap the normalised rows as `{data}`. */
  function GetMultiple(ctx: Context, driver: Driver, query: Query, page: Option<int>): (r: Read)
    ensures r.call == ReadCall(ctx, query, page)
    ensures r.call.query == query
    ensures r.reply.data == ctx.emptyOrRows(driver(r.call))
  {
    var call := ReadCall(ctx, query, page);
    Read(call, ReadReply(ctx.emptyOrRows(driver(call))))
  }

  /** JavaScript truthiness of `result.affectedRows`: present and non-zero.
      A row list has no such property. */
  predicate Acknowledged(a: Answer) {
    a.Ack? && a.affectedRows.Some? && a.affectedRows.value != 0
  }

  /** The reply `insert` builds from the driver's answer. On success it
      reports `insertArr[0]` as the id; an empty array would make that
      `undefined`, which the JSON response drops. */
  function Interpret(a: Answer, insertArr: seq<Scalar>): (r: InsertReply)
    ensures r.message == AddedMessage || r.message == ErrorMessage
    ensures r.message == AddedMessage <==> Acknowledged(a)
    ensures !Acknowledged(a) ==> r == InsertReply(ErrorMessage, None)
    ensures r.id.Some? <==> Acknowledged(a) && |insertArr| > 0
    ensures r.id.Some? ==> r.id.value == insertArr[0]
  {
    if Acknowledged(a) then
      InsertReply(AddedMessage, if |insertArr| > 0 then Some(insertArr[0]) else None)
    else
      InsertReply(ErrorMessage, None)
  }

  /** `insert`: hand the parameters to the driver as they are and interpret
      the acknowledgement. */
  function Insert(driver: Driver, query: Query, insertArr: seq<Scalar>): (w: Write)
    ensures w.call == Call(query, insertArr)
    ensures w.reply == Interpret(driver(Call(query, insertArr)), insertArr)
    ensures !Acknowledged(driver(Call(query, insertArr))) ==> w.reply == InsertReply(ErrorMessage, None)
    ensures Acknowledged(driver(Call(query, insertArr))) && |insertArr| > 0 ==>
              w.reply == InsertReply(AddedMessage, Some(insertArr[0]))
    ensures w.reply.message == AddedMessage <==> Acknowledged(driver(Call(query, insertArr)))
    ensures w.reply.id.Some? ==> |insertArr| > 0 && w.reply.id.value == insertArr[0]
  {
    var call := Call(query, insertArr);
    Write(call, Interpret(driver(call), insertArr))
  }

  /** The keys of the JSON object an insert reply serialises to. */
  function Keys(r: InsertReply): set<string> {
    {"message"} + (if r.id.Some? then {"id"} else {})
  }

  /** A successful insert answers with exactly `message` and `id`; a failed
      one with `message` alone. */
  lemma InsertReplyKeys(a: Answer, insertArr: seq<Scalar>)
    requires |insertArr| > 0
    ensures Keys(Interpret(a, insertArr)) == {"message", "id"} <==> Acknowledged(a)
    ensures Keys(Interpret(a, insertArr)) == {"message"} <==> !Acknowledged(a)
  {
    if Acknowledged(a) {
      assert "id" in Keys(Interpret(a, insertArr));
    } else {
      assert "id" !in Keys(Interpret(a, insertArr));
    }
  }

  /** Only the first bound parameter reaches the reply: two parameter lists
      that agree on their head give the same reply. */
  lemma InsertReportsOnlyFirst(a: Answer, xs: seq<Scalar>, ys: seq<Scalar>)
    requires |xs| > 0 && |ys| > 0 && xs[0] == ys[0]
    ensures Interpret(a, xs) == Interpret(a, ys)
  {
  }

  /** Omitting the page is the same as asking for page 1. */
  lemma PageDefaultsToOne(ctx: Context, query: Query)
    ensures ReadCall(ctx, query, None) == ReadCall(ctx, query, Some(1))
    ensures ReadCall(ctx, query, None).params[0] == Num(ctx.getOffset(1, ctx.listPerPage))
  {
  }
}
