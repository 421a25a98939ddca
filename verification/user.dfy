/** The author ("user") routes: list, add and get by id. */
module UserRoutes {
  import opened Options
  import opened Db
  import opened Bridge
  import opened Validation
  import opened Handlers

  /** GET /all: the author list. */
  function All(ctx: Context, driver: Driver): (x: Exchange)
    ensures Listed(x, ctx, driver, Authors)
  {
    ListRead(ctx, driver, Authors)
  }

  const AddChecks: seq<Check> := [
    Check("name", NotEmpty, "name  must be not empty"),
    Check("name", MaxLength(50), "name can't exceed 50 characters"),
    Check("job_title", NotEmpty, "job_title can't be not empty"),
    Check("job_title", MaxLength(50), "job_title can't exceed 50 characters")
  ]

  /** An acceptable new author: name and job title of 1 to 50 characters. */
  predicate ValidAuthor(fields: Fields) {
    var name := Field(fields, "name");
    var job := Field(fields, "job_title");
    name != "" && |name| <= 50 && job != "" && |job| <= 50
  }

  /** The insert parameters, new author id first. */
  function AddParams(fields: Fields, authorId: string): seq<Scalar> {
    [Str(authorId), Str(Field(fields, "name")), Str(Field(fields, "job_title"))]
  }

  /** The insert call an accepted request makes. */
  function AddCall(fields: Fields, authorId: string): Call {
    Call(InsertAuthor, AddParams(fields, authorId))
  }

  lemma AddChecksMeanValid(fields: Fields)
    ensures AllPass(AddChecks, fields) <==> ValidAuthor(fields)
  {
    if ValidAuthor(fields) {
      forall i | 0 <= i < |AddChecks| ensures Passes(AddChecks[i], fields) {}
    }
    if AllPass(AddChecks, fields) {
      assert Passes(AddChecks[0], fields) && Passes(AddChecks[1], fields);
      assert Passes(AddChecks[2], fields) && Passes(AddChecks[3], fields);
    }
  }

  /** POST /add: a rejected request gets 401 and no insert; an accepted one
      inserts the new author with its fresh id first, so a successful reply
      reports that id. */
  function Add(fields: Fields, authorId: string, driver: Driver): (x: Exchange)
    ensures x.response.status == Unauthorized <==> !ValidAuthor(fields)
    ensures !ValidAuthor(fields) ==> Rejected(x, Validate(AddChecks, fields, InBody))
    ensures ValidAuthor(fields) ==> InsertAnswered(x, driver, AddCall(fields, authorId), Str(authorId))
  {
    AddChecksMeanValid(fields);
    AddResource(AddChecks, fields, driver, InsertAuthor, AddParams(fields, authorId))
  }

  const IdGuard := Check("id", NotEmpty, "author id  must be not empty")

  /** GET /getbyid/:id: 401 before any read on an empty id, otherwise a list
      read of that author. */
  function GetById(ctx: Context, params: Fields, driver: Driver): (x: Exchange)
    ensures Field(params, "id") == "" ==> Rejected(x, [ErrorOf(IdGuard, params, InParams)])
    ensures Field(params, "id") != "" ==> Listed(x, ctx, driver, AuthorById(Field(params, "id")))
  {
    GuardedRead(ctx, driver, params, IdGuard, AuthorById(Field(params, "id")))
  }
}
