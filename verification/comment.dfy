/** The comment routes: add, and list the comments of an article. */
module CommentRoutes {
  import opened Options
  import opened Db
  import opened Bridge
  import opened Validation
  import opened Handlers
  import ArticleRoutes

  const AddChecks: seq<Check> := [
    Check("user_id", NotEmpty, "can't be empty"),
    Check("article_id", NotEmpty, "can't be empty"),
    Check("body", NotEmpty, "can't be empty"),
    Check("body", MaxLength(200), "title can't exceed 200 characters")
  ]

  /** An acceptable new comment: a user id, an article id, and a body of 1
      to 200 characters. */
  predicate ValidComment(fields: Fields) {
    var body := Field(fields, "body");
    && Field(fields, "user_id") != ""
    && Field(fields, "article_id") != ""
    && body != "" && |body| <= 200
  }

  /** The insert parameters, new comment id first. */
  function AddParams(fields: Fields, commentId: string): seq<Scalar> {
    [Str(commentId), Str(Field(fields, "article_id")), Str(Field(fields, "user_id")), Str(Field(fields, "body"))]
  }

  /** The insert call an accepted request makes. */
  function AddCall(fields: Fields, commentId: string): Call {
    Call(InsertComment, AddParams(fields, commentId))
  }

  lemma AddChecksMeanValid(fields: Fields)
    ensures AllPass(AddChecks, fields) <==> ValidComment(fields)
  {
    if ValidComment(fields) {
      forall i | 0 <= i < |AddChecks| ensures Passes(AddChecks[i], fields) {}
    }
    if AllPass(AddChecks, fields) {
      assert Passes(AddChecks[0], fields) && Passes(AddChecks[1], fields);
      assert Passes(AddChecks[2], fields) && Passes(AddChecks[3], fields);
    }
  }

  /** POST /add: a rejected request gets 401 and no insert; an accepted one
      inserts the comment at once, with its fresh id first, so a successful
      reply reports that id. */
  function Add(fields: Fields, commentId: string, driver: Driver): (x: Exchange)
    ensures x.response.status == Unauthorized <==> !ValidComment(fields)
    ensures !ValidComment(fields) ==> Rejected(x, Validate(AddChecks, fields, InBody))
    ensures ValidComment(fields) ==> InsertAnswered(x, driver, AddCall(fields, commentId), Str(commentId))
  {
    AddChecksMeanValid(fields);
    AddResource(AddChecks, fields, driver, InsertComment, AddParams(fields, commentId))
  }

  /**
   Adding a comment checks neither the article nor the author: its only
   driver call is the insert, whatever the driver holds. A like with the same
   ids first reads both rows and inserts only when both exist.
   */
  lemma AddSkipsExistenceCheck(ctx: Context, fields: Fields, commentId: string, driver: Driver)
    requires ValidComment(fields)
    ensures forall c :: c in Add(fields, commentId, driver).calls ==> c.query == InsertComment
    ensures Add(fields, commentId, driver).response.status == OK
    ensures ArticleRoutes.Like(ctx, fields, driver).calls[0].query == ArticleById(Field(fields, "article_id"))
    ensures ArticleRoutes.Like(ctx, fields, driver).calls[1].query == AuthorById(Field(fields, "user_id"))
    ensures ArticleRoutes.Like(ctx, fields, driver).response.status == OK
            <==> ArticleRoutes.BothExist(ctx, driver, fields)
  {
  }

  const IdGuard := Check("id", NotEmpty, "can't be empty")

  /** GET /all/:id: 401 before any read on an empty article id, otherwise a
      list read of that article's comments. */
  function AllOfArticle(ctx: Context, params: Fields, driver: Driver): (x: Exchange)
    ensures Field(params, "id") == "" ==> Rejected(x, [ErrorOf(IdGuard, params, InParams)])
    ensures Field(params, "id") != "" ==> Listed(x, ctx, driver, CommentsOfArticle(Field(params, "id")))
  {
    GuardedRead(ctx, driver, params, IdGuard, CommentsOfArticle(Field(params, "id")))
  }
}
